/**
 The migrator's one-pass reconstruction of daily yields from cumulative energy samples, and the
 declarative account of each local day that it computes, for every page size.
 */
module DailyYieldRebuild {
  import opened Wrappers
  import opened Keyset
  import opened CheckpointKeys
  import opened Canonical

  /** A canonical energy sample, joined with its inverter's serial number. */
  datatype Sample = Sample(inverter: int, serial: int, at: int, total: Cell)

  function SampleOrder(s: Sample): Key { Key(s.inverter, s.at, 0) }

  /** Samples in scan order. Inverter ids are positive and stand for one serial each. */
  ghost predicate ValidSamples(s: seq<Sample>) {
    && Ascending(s, SampleOrder)
    && (forall i | 0 <= i < |s| :: s[i].inverter > 0)
    && (forall i, j | 0 <= i < |s| && 0 <= j < |s| :: s[i].inverter == s[j].inverter <==> s[i].serial == s[j].serial)
  }

  /** Local dates never run backwards. */
  ghost predicate Monotone(dateOf: int -> int) {
    forall t, u | t <= u :: dateOf(t) <= dateOf(u)
  }

  // ---------------------------------------------------------------- declarative account of a day

  predicate Valid(total: Cell) { total.Some? && total.value >= 0 }

  /** The last non-negative total of the inverter on any earlier local day. */
  function Baseline(s: seq<Sample>, dateOf: int -> int, inverter: int, date: int): Cell {
    if s == [] then None
    else
      var x := s[|s| - 1];
      if x.inverter == inverter && dateOf(x.at) < date && Valid(x.total) then x.total
      else Baseline(s[..|s| - 1], dateOf, inverter, date)
  }

  /** The last total within the day that is non-negative and at least `floor`. */
  function LastInDay(s: seq<Sample>, dateOf: int -> int, inverter: int, date: int, floor: int): Cell {
    if s == [] then None
    else
      var x := s[|s| - 1];
      if x.inverter == inverter && dateOf(x.at) == date && Valid(x.total) && x.total.value >= floor then x.total
      else LastInDay(s[..|s| - 1], dateOf, inverter, date, floor)
  }

  /** The last in-day total at or above the day's baseline; none without a baseline. */
  function Accepted(s: seq<Sample>, dateOf: int -> int, inverter: int, date: int, baseline: Cell): Cell {
    if baseline.None? then None else LastInDay(s, dateOf, inverter, date, baseline.value)
  }

  predicate IsSampled(s: seq<Sample>, dateOf: int -> int, inverter: int, date: int) {
    exists i | 0 <= i < |s| :: s[i].inverter == inverter && dateOf(s[i].at) == date
  }

  datatype Reason = NoBaseline | NoAcceptedTotal | NoSample
  datatype Outcome = Copied | Missing(reason: Reason) | Rebuilt(total: int, daily: int)

  function OutcomeOf(s: seq<Sample>, dateOf: int -> int, copied: set<DayKey>, day: DayId): Outcome {
    if DayKey(day.serial, day.date) in copied then Copied
    else if !IsSampled(s, dateOf, day.inverter, day.date) then Missing(NoSample)
    else
      var baseline := Baseline(s, dateOf, day.inverter, day.date);
      var total := Accepted(s, dateOf, day.inverter, day.date, baseline);
      if baseline.None? then Missing(NoBaseline)
      else if total.None? then Missing(NoAcceptedTotal)
      else Rebuilt(total.value, total.value - baseline.value)
  }

  lemma {:induction false} LastInDayBounds(s: seq<Sample>, dateOf: int -> int, inverter: int, date: int, floor: int)
    ensures LastInDay(s, dateOf, inverter, date, floor).Some? ==>
              LastInDay(s, dateOf, inverter, date, floor).value >= floor
  {
    if s != [] { LastInDayBounds(s[..|s| - 1], dateOf, inverter, date, floor); }
  }

  /** A reconstructed yield is never negative. */
  lemma RebuiltYieldIsNonNegative(s: seq<Sample>, dateOf: int -> int, copied: set<DayKey>, day: DayId)
    ensures var o := OutcomeOf(s, dateOf, copied, day); o.Rebuilt? ==> 0 <= o.daily <= o.total
  {
    var baseline := Baseline(s, dateOf, day.inverter, day.date);
    BaselineIsValid(s, dateOf, day.inverter, day.date);
    if baseline.Some? { LastInDayBounds(s, dateOf, day.inverter, day.date, baseline.value); }
  }

  lemma {:induction false} BaselineIsValid(s: seq<Sample>, dateOf: int -> int, inverter: int, date: int)
    ensures var b := Baseline(s, dateOf, inverter, date); b.Some? ==> Valid(b)
  {
    if s != [] { BaselineIsValid(s[..|s| - 1], dateOf, inverter, date); }
  }

  // ---------------------------------------------------------------- what an outcome says of the samples

  /** Sample `i` is the inverter's last one on an earlier date that has a total of at least zero. */
  ghost predicate IsBaseline(s: seq<Sample>, dateOf: int -> int, day: DayId, i: int) {
    && 0 <= i < |s| && CanBeBaseline(s[i], dateOf, day)
    && forall j | i < j < |s| :: !CanBeBaseline(s[j], dateOf, day)
  }

  predicate CanBeBaseline(x: Sample, dateOf: int -> int, day: DayId) {
    x.inverter == day.inverter && dateOf(x.at) < day.date && x.total.Some? && x.total.value >= 0
  }

  /** Sample `i` is the inverter's last one on the date itself that has a total of at least zero and of at least `floor`. */
  ghost predicate IsClosing(s: seq<Sample>, dateOf: int -> int, day: DayId, floor: int, i: int) {
    && 0 <= i < |s| && CanClose(s[i], dateOf, day, floor)
    && forall j | i < j < |s| :: !CanClose(s[j], dateOf, day, floor)
  }

  predicate CanClose(x: Sample, dateOf: int -> int, day: DayId, floor: int) {
    x.inverter == day.inverter && dateOf(x.at) == day.date && x.total.Some? && x.total.value >= 0 && x.total.value >= floor
  }

  lemma {:induction false} BaselineMeans(s: seq<Sample>, dateOf: int -> int, day: DayId)
    ensures var b := Baseline(s, dateOf, day.inverter, day.date);
            && (b.None? <==> forall i | 0 <= i < |s| :: !CanBeBaseline(s[i], dateOf, day))
            && (b.Some? ==> exists i :: IsBaseline(s, dateOf, day, i) && s[i].total == b)
  {
    if s != [] {
      var front, x := s[..|s| - 1], s[|s| - 1];
      if CanBeBaseline(x, dateOf, day) {
        assert IsBaseline(s, dateOf, day, |s| - 1);
      } else {
        BaselineMeans(front, dateOf, day);
        hide CanBeBaseline;
        if i :| IsBaseline(front, dateOf, day, i) { assert IsBaseline(s, dateOf, day, i); }
      }
    }
  }

  lemma {:induction false} LastInDayMeans(s: seq<Sample>, dateOf: int -> int, day: DayId, floor: int)
    ensures var t := LastInDay(s, dateOf, day.inverter, day.date, floor);
            && (t.None? <==> forall i | 0 <= i < |s| :: !CanClose(s[i], dateOf, day, floor))
            && (t.Some? ==> exists i :: IsClosing(s, dateOf, day, floor, i) && s[i].total == t)
  {
    if s != [] {
      var front, x := s[..|s| - 1], s[|s| - 1];
      if CanClose(x, dateOf, day, floor) {
        assert IsClosing(s, dateOf, day, floor, |s| - 1);
      } else {
        LastInDayMeans(front, dateOf, day, floor);
        hide CanClose;
        if i :| IsClosing(front, dateOf, day, floor, i) { assert IsClosing(s, dateOf, day, floor, i); }
      }
    }
  }

  /**
   The outcome of a day, from its samples alone: what is copied stays; a day without samples, without a
   baseline, or without a total at or above it is missing for that reason, the first that applies; any
   other day gets its last such total and the difference to the baseline.
   */
  lemma OutcomeMeans(s: seq<Sample>, dateOf: int -> int, copied: set<DayKey>, day: DayId)
    ensures var o := OutcomeOf(s, dateOf, copied, day);
            var sampled := exists i :: 0 <= i < |s| && s[i].inverter == day.inverter && dateOf(s[i].at) == day.date;
            var based := exists i :: IsBaseline(s, dateOf, day, i);
            && (o.Copied? <==> DayKey(day.serial, day.date) in copied)
            && (o == Missing(NoSample) <==> DayKey(day.serial, day.date) !in copied && !sampled)
            && (o == Missing(NoBaseline) <==> DayKey(day.serial, day.date) !in copied && sampled && !based)
            && (o.Rebuilt? || o == Missing(NoAcceptedTotal) <==> DayKey(day.serial, day.date) !in copied && sampled && based)
            && (forall i | IsBaseline(s, dateOf, day, i) && o == Missing(NoAcceptedTotal) ::
                  forall j | 0 <= j < |s| :: !CanClose(s[j], dateOf, day, s[i].total.value))
            && (forall i | IsBaseline(s, dateOf, day, i) && o.Rebuilt? ::
                  exists j :: IsClosing(s, dateOf, day, s[i].total.value, j) && s[j].total == Some(o.total)
                              && o.daily == o.total - s[i].total.value)
  {
    BaselineMeans(s, dateOf, day);
    var baseline := Baseline(s, dateOf, day.inverter, day.date);
    forall i, j | IsBaseline(s, dateOf, day, i) && IsBaseline(s, dateOf, day, j)
      ensures i == j
    {
    }
    if baseline.Some? { LastInDayMeans(s, dateOf, day, baseline.value); }
    hide CanBeBaseline, CanClose, IsClosing, Baseline, LastInDay;
  }

  // ---------------------------------------------------------------- days and their span

  datatype DayId = DayId(inverter: int, serial: int, date: int)

  predicate Before(x: DayId, y: DayId) {
    x.inverter < y.inverter || (x.inverter == y.inverter && x.date < y.date)
  }

  predicate SampleOf(s: Sample, day: DayId) {
    s.inverter == day.inverter && s.serial == day.serial
  }

  /** The day lies between the first and the last sampled day of its inverter. */
  predicate InSpan(s: seq<Sample>, dateOf: int -> int, day: DayId) {
    && (exists a | 0 <= a < |s| :: SampleOf(s[a], day) && dateOf(s[a].at) <= day.date)
    && (exists b | 0 <= b < |s| :: SampleOf(s[b], day) && day.date <= dateOf(s[b].at))
  }

  function DayOf(s: Sample, dateOf: int -> int): DayId { DayId(s.inverter, s.serial, dateOf(s.at)) }

  lemma {:induction false} LaterSamplesDoNotMatter(s: seq<Sample>, i: nat, dateOf: int -> int, inverter: int, date: int, floor: int)
    requires i <= |s|
    requires forall j | i <= j < |s| :: !(s[j].inverter == inverter && dateOf(s[j].at) <= date)
    ensures Baseline(s[..i], dateOf, inverter, date) == Baseline(s, dateOf, inverter, date)
    ensures LastInDay(s[..i], dateOf, inverter, date, floor) == LastInDay(s, dateOf, inverter, date, floor)
    decreases |s|
  {
    if i < |s| {
      var front := s[..|s| - 1];
      assert front[..i] == s[..i];
      LaterSamplesDoNotMatter(front, i, dateOf, inverter, date, floor);
    } else {
      assert s[..i] == s;
    }
  }

  /** Samples of another day leave the in-day total alone; those of the same day leave the baseline alone. */
  lemma {:induction false} FreshDay(s: seq<Sample>, dateOf: int -> int, inverter: int, date: int, floor: int)
    requires forall j | 0 <= j < |s| :: !(s[j].inverter == inverter && dateOf(s[j].at) == date)
    ensures LastInDay(s, dateOf, inverter, date, floor).None?
  {
    if s != [] { FreshDay(s[..|s| - 1], dateOf, inverter, date, floor); }
  }

  lemma {:induction false} FreshInverter(s: seq<Sample>, dateOf: int -> int, inverter: int, date: int)
    requires forall j | 0 <= j < |s| :: s[j].inverter != inverter
    ensures Baseline(s, dateOf, inverter, date).None?
  {
    if s != [] { FreshInverter(s[..|s| - 1], dateOf, inverter, date); }
  }

  /** The next day's baseline: the finished day's last valid total, else the finished day's baseline. */
  lemma {:induction false} NextBaseline(s: seq<Sample>, dateOf: int -> int, inverter: int, date: int, next: int)
    requires date < next
    requires forall j | 0 <= j < |s| && s[j].inverter == inverter :: dateOf(s[j].at) <= date
    requires forall j, k | 0 <= j < k < |s| && s[j].inverter == inverter && s[k].inverter == inverter ::
               dateOf(s[j].at) <= dateOf(s[k].at)
    ensures Baseline(s, dateOf, inverter, next) ==
            var last := LastInDay(s, dateOf, inverter, date, 0);
            if last.Some? then last else Baseline(s, dateOf, inverter, date)
  {
    if s != [] {
      var front, x := s[..|s| - 1], s[|s| - 1];
      if x.inverter == inverter && dateOf(x.at) < date {
        FreshDay(s, dateOf, inverter, date, 0);
      }
      NextBaseline(front, dateOf, inverter, date, next);
    }
  }

  // ---------------------------------------------------------------- the accumulator

  datatype Day = Day(id: DayId, baseline: Cell, accepted: Cell, lastValid: Cell)

  class DayAccumulator {
    const id: DayId
    const baseline: Cell
    var acceptedTotal: Cell
    var lastValidTotal: Cell

    ghost function View(): Day
      reads this
    {
      Day(id, baseline, acceptedTotal, lastValidTotal)
    }

    constructor (sample: Sample, date: int, baseline: Cell)
      ensures View() == AcceptTotal(Day(DayId(sample.inverter, sample.serial, date), baseline, None, None), sample.total)
    {
      this.id := DayId(sample.inverter, sample.serial, date);
      this.baseline := baseline;
      acceptedTotal := None;
      lastValidTotal := None;
      new;
      Accept(sample.total);
    }

    method Accept(total: Cell)
      modifies this
      ensures View() == AcceptTotal(old(View()), total)
    {
      if total.None? || total.value < 0 { return; }
      lastValidTotal := total;
      if baseline.Some? && total.value >= baseline.value { acceptedTotal := total; }
    }
  }

  function AcceptTotal(day: Day, total: Cell): Day {
    if !Valid(total) then day
    else if day.baseline.Some? && total.value >= day.baseline.value
    then day.(lastValid := total, accepted := total)
    else day.(lastValid := total)
  }

  /** The open day accounts for all samples of its date read so far. */
  ghost predicate DayAccounts(s: seq<Sample>, dateOf: int -> int, day: Day) {
    var id := day.id;
    && day.baseline == Baseline(s, dateOf, id.inverter, id.date)
    && day.accepted == Accepted(s, dateOf, id.inverter, id.date, day.baseline)
    && day.lastValid == LastInDay(s, dateOf, id.inverter, id.date, 0)
  }

  lemma AcceptKeepsAccount(s: seq<Sample>, i: nat, dateOf: int -> int, day: Day)
    requires i < |s| && DayOf(s[i], dateOf) == day.id && DayAccounts(s[..i], dateOf, day)
    ensures DayAccounts(s[..i + 1], dateOf, AcceptTotal(day, s[i].total))
  {
    assert s[..i + 1][..i] == s[..i];
    BaselineIsValid(s[..i], dateOf, day.id.inverter, day.id.date);
  }

  // ---------------------------------------------------------------- the report

  datatype Detail = Detail(day: DayId, total: int, daily: int)
  datatype MissingDay = MissingDay(day: DayId, reason: Reason)

  /** The day to report when its accumulator is finished. */
  function FinishedOutcome(copied: set<DayKey>, day: Day): Outcome {
    if DayKey(day.id.serial, day.id.date) in copied then Copied
    else if day.baseline.None? then Missing(NoBaseline)
    else if day.accepted.None? then Missing(NoAcceptedTotal)
    else Rebuilt(day.accepted.value, day.accepted.value - day.baseline.value)
  }

  ghost predicate InOrder(r: seq<Detail>, m: seq<MissingDay>) {
    && (forall i, j | 0 <= i < j < |r| :: Before(r[i].day, r[j].day))
    && (forall i, j | 0 <= i < j < |m| :: Before(m[i].day, m[j].day))
  }

  /** The report lists exactly the days of `days`, each under the outcome the samples give it. */
  ghost predicate Reports(s: seq<Sample>, dateOf: int -> int, copied: set<DayKey>, days: DayId -> bool,
                          r: seq<Detail>, m: seq<MissingDay>) {
    && InOrder(r, m)
    && (forall e :: e in r <==> days(e.day) && OutcomeOf(s, dateOf, copied, e.day) == Rebuilt(e.total, e.daily))
    && (forall e :: e in m <==> days(e.day) && OutcomeOf(s, dateOf, copied, e.day) == Missing(e.reason))
  }

  /** Appending one later day's outcome to the report. */
  function Append(r: seq<Detail>, m: seq<MissingDay>, day: DayId, o: Outcome): (seq<Detail>, seq<MissingDay>) {
    match o
    case Copied => (r, m)
    case Missing(reason) => (r, m + [MissingDay(day, reason)])
    case Rebuilt(total, daily) => (r + [Detail(day, total, daily)], m)
  }

  lemma AppendReports(s: seq<Sample>, dateOf: int -> int, copied: set<DayKey>, days: DayId -> bool, more: DayId -> bool,
                      r: seq<Detail>, m: seq<MissingDay>, day: DayId)
    requires Reports(s, dateOf, copied, days, r, m)
    requires forall d | days(d) :: Before(d, day)
    requires forall d :: more(d) <==> days(d) || d == day
    ensures var a := Append(r, m, day, OutcomeOf(s, dateOf, copied, day)); Reports(s, dateOf, copied, more, a.0, a.1)
  {
    var a := Append(r, m, day, OutcomeOf(s, dateOf, copied, day));
    assert forall i | 0 <= i < |r| :: r[i] in r;
    assert forall i | 0 <= i < |m| :: m[i] in m;
  }

  /** The days settled once `i` samples are read: in the span read so far and before the open day. */
  predicate Settled(s: seq<Sample>, i: nat, dateOf: int -> int, d: DayId) {
    0 < i <= |s| && InSpan(s[..i], dateOf, d) && Before(d, DayOf(s[i - 1], dateOf))
  }

  lemma SettledSameDay(s: seq<Sample>, i: nat, dateOf: int -> int, d: DayId)
    requires ValidSamples(s) && Monotone(dateOf) && 0 < i < |s|
    requires DayOf(s[i], dateOf) == DayOf(s[i - 1], dateOf)
    ensures Settled(s, i + 1, dateOf, d) <==> Settled(s, i, dateOf, d)
  {
    var cur := DayOf(s[i], dateOf);
    assert s[..i + 1][i] == s[i] && s[..i][i - 1] == s[i - 1];
    assert forall j | 0 <= j < i :: s[..i][j] == s[j] == s[..i + 1][j];
  }

  /** Reading a sample of a new day settles the open day and, within one inverter, the gap before the new day. */
  lemma SettledNewDay(s: seq<Sample>, i: nat, dateOf: int -> int, d: DayId)
    requires ValidSamples(s) && Monotone(dateOf) && 0 < i < |s|
    requires DayOf(s[i], dateOf) != DayOf(s[i - 1], dateOf)
    ensures var cur, next := DayOf(s[i - 1], dateOf), DayOf(s[i], dateOf);
            Settled(s, i + 1, dateOf, d) <==>
              || Settled(s, i, dateOf, d)
              || d == cur
              || (cur.inverter == next.inverter && d.inverter == cur.inverter && d.serial == cur.serial
                  && cur.date < d.date < next.date)
  {
    var cur, next := DayOf(s[i - 1], dateOf), DayOf(s[i], dateOf);
    DatesFollowOrder(s, i, dateOf);
    assert next.inverter > cur.inverter || next.date > cur.date;
    hide ValidSamples, Monotone;
    ReadSpanEndsAtOpenDay(s, i, dateOf, d);
    SpanGrows(s, i, dateOf, d);
    hide InSpan;
  }

  ghost predicate InDateOrder(s: seq<Sample>, i: nat, dateOf: int -> int)
    requires i < |s|
  {
    forall j | 0 <= j <= i ::
      s[j].inverter <= s[i].inverter &&
      (s[j].inverter == s[i].inverter ==> dateOf(s[j].at) <= dateOf(s[i].at) && s[j].serial == s[i].serial)
  }

  lemma ReadSpanEndsAtOpenDay(s: seq<Sample>, i: nat, dateOf: int -> int, d: DayId)
    requires 0 < i < |s| && InDateOrder(s, i - 1, dateOf)
    ensures InSpan(s[..i], dateOf, d) ==> Before(d, DayOf(s[i - 1], dateOf)) || d == DayOf(s[i - 1], dateOf)
    ensures InSpan(s[..i], dateOf, DayOf(s[i - 1], dateOf))
  {
    assert s[..i][i - 1] == s[i - 1];
    assert forall j | 0 <= j < i :: s[..i][j] == s[j];
  }

  lemma SpanGrows(s: seq<Sample>, i: nat, dateOf: int -> int, d: DayId)
    requires 0 < i < |s| && InDateOrder(s, i - 1, dateOf) && InDateOrder(s, i, dateOf)
    requires Before(DayOf(s[i - 1], dateOf), DayOf(s[i], dateOf))
    ensures var cur, next := DayOf(s[i - 1], dateOf), DayOf(s[i], dateOf);
            Before(d, next) ==>
              (InSpan(s[..i + 1], dateOf, d) <==>
               InSpan(s[..i], dateOf, d) ||
               (cur.inverter == next.inverter && d.inverter == cur.inverter && d.serial == cur.serial
                && cur.date < d.date < next.date))
  {
    var before, after := s[..i], s[..i + 1];
    assert after[i] == s[i] && after[i - 1] == before[i - 1] == s[i - 1];
    assert forall j | 0 <= j < i :: before[j] == s[j] == after[j];
  }

  /** Along a scan the inverters ascend, and the dates within each. */
  lemma DatesFollowOrder(s: seq<Sample>, i: nat, dateOf: int -> int)
    requires ValidSamples(s) && Monotone(dateOf) && i < |s|
    ensures InDateOrder(s, i, dateOf) && (i > 0 ==> InDateOrder(s, i - 1, dateOf))
  {
    forall j, k | 0 <= j < k <= i
      ensures s[j].inverter <= s[k].inverter && (s[j].inverter == s[k].inverter ==> dateOf(s[j].at) <= dateOf(s[k].at))
    {
      assert Less(SampleOrder(s[j]), SampleOrder(s[k]));
    }
  }

  /** As `Settled`, with the open day's inverter settled for all days before `until` instead. */
  predicate SettledUntil(s: seq<Sample>, i: nat, dateOf: int -> int, until: int, d: DayId) {
    || Settled(s, i, dateOf, d)
    || (0 < i <= |s| && var cur := DayOf(s[i - 1], dateOf);
        d.inverter == cur.inverter && d.serial == cur.serial && cur.date <= d.date < until)
  }

  ghost predicate ReportsUntil(s: seq<Sample>, i: nat, dateOf: int -> int, copied: set<DayKey>, until: int,
                               r: seq<Detail>, m: seq<MissingDay>) {
    Reports(s, dateOf, copied, d => SettledUntil(s, i, dateOf, until, d), r, m)
  }

  lemma ReportsSame(s: seq<Sample>, dateOf: int -> int, copied: set<DayKey>, days: DayId -> bool, same: DayId -> bool,
                    r: seq<Detail>, m: seq<MissingDay>)
    requires Reports(s, dateOf, copied, days, r, m) && forall d :: days(d) <==> same(d)
    ensures Reports(s, dateOf, copied, same, r, m)
  {
  }

  /** Settling one more day of the open inverter. */
  lemma SettleOne(s: seq<Sample>, i: nat, dateOf: int -> int, copied: set<DayKey>, until: int,
                  r: seq<Detail>, m: seq<MissingDay>)
    requires 0 < i <= |s| && dateOf(s[i - 1].at) <= until
    requires ReportsUntil(s, i, dateOf, copied, until, r, m)
    ensures var day := DayOf(s[i - 1], dateOf).(date := until);
            var a := Append(r, m, day, OutcomeOf(s, dateOf, copied, day));
            ReportsUntil(s, i, dateOf, copied, until + 1, a.0, a.1)
  {
    var day := DayOf(s[i - 1], dateOf).(date := until);
    AppendReports(s, dateOf, copied, d => SettledUntil(s, i, dateOf, until, d),
                  d => SettledUntil(s, i, dateOf, until + 1, d), r, m, day);
  }

  lemma SampleOrderFacts(s: seq<Sample>, i: nat, dateOf: int -> int)
    requires ValidSamples(s) && Monotone(dateOf) && i < |s|
    ensures forall j | 0 <= j < i :: s[j].inverter < s[i].inverter
                                   || (s[j].inverter == s[i].inverter && dateOf(s[j].at) <= dateOf(s[i].at))
    ensures forall j | i <= j < |s| :: s[i].inverter < s[j].inverter
                                     || (s[j].inverter == s[i].inverter && dateOf(s[i].at) <= dateOf(s[j].at))
  {
    forall j | 0 <= j < i
      ensures s[j].inverter < s[i].inverter || (s[j].inverter == s[i].inverter && dateOf(s[j].at) <= dateOf(s[i].at))
    {
      assert Less(SampleOrder(s[j]), SampleOrder(s[i]));
    }
    forall j | i < j < |s|
      ensures s[i].inverter < s[j].inverter || (s[j].inverter == s[i].inverter && dateOf(s[i].at) <= dateOf(s[j].at))
    {
      assert Less(SampleOrder(s[i]), SampleOrder(s[j]));
    }
  }

  /** Finishing the open day reports the outcome that all samples, later ones included, give it. */
  lemma FinishedDayOutcome(s: seq<Sample>, i: nat, dateOf: int -> int, copied: set<DayKey>, day: Day)
    requires ValidSamples(s) && Monotone(dateOf) && 0 < i <= |s|
    requires i < |s| ==> DayOf(s[i], dateOf) != day.id
    requires day.id == DayOf(s[i - 1], dateOf) && DayAccounts(s[..i], dateOf, day)
    ensures FinishedOutcome(copied, day) == OutcomeOf(s, dateOf, copied, day.id)
  {
    SampleOrderFacts(s, i - 1, dateOf);
    forall j | i <= j < |s|
      ensures !(s[j].inverter == day.id.inverter && dateOf(s[j].at) <= day.id.date)
    {
      SampleOrderFacts(s, i, dateOf);
    }
    var floor := if day.baseline.Some? then day.baseline.value else 0;
    LaterSamplesDoNotMatter(s, i, dateOf, day.id.inverter, day.id.date, floor);
    assert IsSampled(s, dateOf, day.id.inverter, day.id.date) by { assert s[i - 1].inverter == day.id.inverter; }
  }

  /** A local day strictly between two consecutive samples of one inverter has no sample. */
  lemma GapDayOutcome(s: seq<Sample>, i: nat, dateOf: int -> int, copied: set<DayKey>, gap: DayId)
    requires ValidSamples(s) && Monotone(dateOf) && 0 < i < |s|
    requires gap.inverter == s[i - 1].inverter == s[i].inverter
    requires dateOf(s[i - 1].at) < gap.date < dateOf(s[i].at)
    ensures OutcomeOf(s, dateOf, copied, gap) ==
            if DayKey(gap.serial, gap.date) in copied then Copied else Missing(NoSample)
  {
    SampleOrderFacts(s, i - 1, dateOf);
    SampleOrderFacts(s, i, dateOf);
  }

  /** A new day opens with the baseline its inverter has reached. */
  lemma OpenedDayAccounts(s: seq<Sample>, i: nat, dateOf: int -> int, day: Day)
    requires ValidSamples(s) && Monotone(dateOf) && 0 < i < |s|
    requires day.id == DayOf(s[i - 1], dateOf) && DayAccounts(s[..i], dateOf, day)
    requires DayOf(s[i], dateOf) != day.id
    ensures var carried := if day.lastValid.Some? then day.lastValid else day.baseline;
            var baseline := if s[i].serial == day.id.serial then carried else None;
            DayAccounts(s[..i], dateOf, Day(DayOf(s[i], dateOf), baseline, None, None))
  {
    var next := DayOf(s[i], dateOf);
    SampleOrderFacts(s, i - 1, dateOf);
    SampleOrderFacts(s, i, dateOf);
    var read := s[..i];
    assert forall j | 0 <= j < i :: read[j] == s[j];
    FreshDay(read, dateOf, next.inverter, next.date, 0);
    if s[i].serial == day.id.serial {
      forall j, k | 0 <= j < k < |read| && read[j].inverter == next.inverter && read[k].inverter == next.inverter
        ensures dateOf(read[j].at) <= dateOf(read[k].at)
      {
        assert Less(SampleOrder(s[j]), SampleOrder(s[k]));
      }
      NextBaseline(read, dateOf, next.inverter, day.id.date, next.date);
      var baseline := Baseline(read, dateOf, next.inverter, next.date);
      if baseline.Some? { FreshDay(read, dateOf, next.inverter, next.date, baseline.value); }
    } else {
      FreshInverter(read, dateOf, next.inverter, next.date);
    }
  }

  lemma FirstDayAccounts(s: seq<Sample>, dateOf: int -> int)
    requires s != []
    ensures DayAccounts(s[..0], dateOf, Day(DayOf(s[0], dateOf), None, None, None))
  {
  }

  // ---------------------------------------------------------------- the scan

  /** Reports the finished day, returning the extended report. */
  method FinishDay(day: DayAccumulator, copied: set<DayKey>, r: seq<Detail>, m: seq<MissingDay>)
    returns (r': seq<Detail>, m': seq<MissingDay>)
    ensures (r', m') == Append(r, m, day.id, FinishedOutcome(copied, day.View()))
  {
    r', m' := r, m;
    if DayKey(day.id.serial, day.id.date) in copied { return; }
    if day.baseline.None? {
      m' := m + [MissingDay(day.id, NoBaseline)];
      return;
    }
    if day.acceptedTotal.None? {
      m' := m + [MissingDay(day.id, NoAcceptedTotal)];
      return;
    }
    r' := r + [Detail(day.id, day.acceptedTotal.value, day.acceptedTotal.value - day.baseline.value)];
  }

  /** Reports the days between the finished day and the date of the next sample of its inverter. */
  method ReportGap(ghost s: seq<Sample>, ghost i: nat, ghost dateOf: int -> int, day: DayId, date: int,
                   copied: set<DayKey>, r: seq<Detail>, m: seq<MissingDay>) returns (m': seq<MissingDay>)
    requires ValidSamples(s) && Monotone(dateOf) && 0 < i < |s|
    requires day == DayOf(s[i - 1], dateOf) && s[i].inverter == day.inverter && date == dateOf(s[i].at) > day.date
    requires ReportsUntil(s, i, dateOf, copied, day.date + 1, r, m)
    ensures ReportsUntil(s, i, dateOf, copied, date, r, m')
  {
    m' := m;
    var gap := day.date + 1;
    while gap < date
      invariant day.date < gap <= date
      invariant ReportsUntil(s, i, dateOf, copied, gap, r, m')
    {
      GapDayOutcome(s, i, dateOf, copied, day.(date := gap));
      SettleOne(s, i, dateOf, copied, gap, r, m');
      if DayKey(day.serial, gap) !in copied {
        m' := m' + [MissingDay(day.(date := gap), NoSample)];
      }
      gap := gap + 1;
    }
  }

  /** The report once `i` samples are read and the last of them has its day open. */
  ghost predicate ScanState(s: seq<Sample>, i: nat, dateOf: int -> int, copied: set<DayKey>, day: Day,
                            r: seq<Detail>, m: seq<MissingDay>) {
    && 0 < i <= |s|
    && day.id == DayOf(s[i - 1], dateOf)
    && DayAccounts(s[..i], dateOf, day)
    && ReportsUntil(s, i, dateOf, copied, day.id.date, r, m)
  }

  lemma SameDayScan(s: seq<Sample>, i: nat, dateOf: int -> int, copied: set<DayKey>, day: Day,
                    r: seq<Detail>, m: seq<MissingDay>)
    requires ValidSamples(s) && Monotone(dateOf)
    requires ScanState(s, i, dateOf, copied, day, r, m) && i < |s| && DayOf(s[i], dateOf) == day.id
    ensures ScanState(s, i + 1, dateOf, copied, AcceptTotal(day, s[i].total), r, m)
  {
    AcceptKeepsAccount(s, i, dateOf, day);
    forall d
      ensures SettledUntil(s, i, dateOf, day.id.date, d) <==> SettledUntil(s, i + 1, dateOf, day.id.date, d)
    {
      SettledSameDay(s, i, dateOf, d);
    }
    ReportsSame(s, dateOf, copied, d => SettledUntil(s, i, dateOf, day.id.date, d),
                d => SettledUntil(s, i + 1, dateOf, day.id.date, d), r, m);
  }

  lemma NewDayScan(s: seq<Sample>, i: nat, dateOf: int -> int, copied: set<DayKey>, day: Day, until: int, baseline: Cell,
                   r: seq<Detail>, m: seq<MissingDay>)
    requires ValidSamples(s) && Monotone(dateOf) && 0 < i < |s|
    requires day.id == DayOf(s[i - 1], dateOf) && DayAccounts(s[..i], dateOf, day)
    requires DayOf(s[i], dateOf) != day.id
    requires until == if s[i].inverter == day.id.inverter then dateOf(s[i].at) else day.id.date + 1
    requires baseline == if s[i].serial != day.id.serial then None
                         else if day.lastValid.Some? then day.lastValid else day.baseline
    requires ReportsUntil(s, i, dateOf, copied, until, r, m)
    ensures var newDay := Day(DayOf(s[i], dateOf), baseline, None, None);
            ScanState(s, i + 1, dateOf, copied, AcceptTotal(newDay, s[i].total), r, m)
  {
    OpenedDayAccounts(s, i, dateOf, day);
    AcceptKeepsAccount(s, i, dateOf, Day(DayOf(s[i], dateOf), baseline, None, None));
    SampleOrderFacts(s, i, dateOf);
    var date := dateOf(s[i].at);
    forall d
      ensures SettledUntil(s, i, dateOf, until, d) <==> SettledUntil(s, i + 1, dateOf, date, d)
    {
      SettledNewDay(s, i, dateOf, d);
    }
    ReportsSame(s, dateOf, copied, d => SettledUntil(s, i, dateOf, until, d),
                d => SettledUntil(s, i + 1, dateOf, date, d), r, m);
  }

  lemma FirstDayScan(s: seq<Sample>, dateOf: int -> int, copied: set<DayKey>)
    requires s != []
    ensures var newDay := Day(DayOf(s[0], dateOf), None, None, None);
            ScanState(s, 1, dateOf, copied, AcceptTotal(newDay, s[0].total), [], [])
  {
    FirstDayAccounts(s, dateOf);
    AcceptKeepsAccount(s, 0, dateOf, Day(DayOf(s[0], dateOf), None, None, None));
    assert s[..1] == [s[0]];
  }

  lemma LastDayReports(s: seq<Sample>, dateOf: int -> int, copied: set<DayKey>, r: seq<Detail>, m: seq<MissingDay>)
    requires ValidSamples(s) && Monotone(dateOf) && s != []
    requires ReportsUntil(s, |s|, dateOf, copied, dateOf(s[|s| - 1].at) + 1, r, m)
    ensures Reports(s, dateOf, copied, d => InSpan(s, dateOf, d), r, m)
  {
    var last := DayOf(s[|s| - 1], dateOf);
    assert s[..|s|] == s;
    SampleOrderFacts(s, |s| - 1, dateOf);
    assert SampleOf(s[|s| - 1], last);
    ReportsSame(s, dateOf, copied, d => SettledUntil(s, |s|, dateOf, last.date + 1, d),
                d => InSpan(s, dateOf, d), r, m);
  }

  /** `energy_sample_batch`: the next bounded page after the cursor. */
  method NextPage(s: seq<Sample>, ghost i: nat, after: Key, pageSize: nat) returns (page: seq<Sample>)
    requires pageSize > 0 && ValidSamples(s) && i <= |s|
    requires if i == 0 then after == Key(0, I64_MIN, 0) else after == SampleOrder(s[i - 1])
    ensures i + |page| <= |s| && page == s[i..i + |page|] && |page| <= pageSize
    ensures page == [] ==> i == |s|
  {
    if i > 0 { RowIsCursor(s, SampleOrder, i); }
    PageAtCursor(s, SampleOrder, after, pageSize, i);
    page := Page(s, SampleOrder, after, pageSize);
  }

  /** The state the scan carries from sample to sample. */
  class YieldScan {
    const copied: set<DayKey>
    var current: DayAccumulator?
    var previousDate: Cell
    var previousSerial: Cell
    var previousTotal: Cell
    var reconstructed: seq<Detail>
    var missing: seq<MissingDay>

    constructor (copied: set<DayKey>)
      ensures current == null && previousSerial.None? && previousTotal.None? && reconstructed == [] && missing == []
      ensures this.copied == copied
    {
      this.copied := copied;
      current := null;
      previousDate, previousSerial, previousTotal := None, None, None;
      reconstructed, missing := [], [];
    }

    /** `i` samples have been read. */
    ghost predicate HasRead(s: seq<Sample>, i: nat, dateOf: int -> int)
      reads this, current
    {
      if i == 0 then
        current == null && previousSerial.None? && previousTotal.None? && reconstructed == [] && missing == []
      else
        && current != null && i <= |s|
        && previousTotal == current.baseline && previousSerial == Some(s[i - 1].serial)
        && ScanState(s, i, dateOf, copied, current.View(), reconstructed, missing)
    }

    method Read(ghost s: seq<Sample>, ghost i: nat, dateOf: int -> int, sample: Sample)
      requires ValidSamples(s) && Monotone(dateOf) && i < |s| && sample == s[i]
      requires HasRead(s, i, dateOf)
      modifies this, current
      ensures HasRead(s, i + 1, dateOf)
      ensures current == old(current) || fresh(current)
    {
      var date := dateOf(sample.at);
      if current == null {
        FirstDayScan(s, dateOf, copied);
        previousTotal, previousDate, previousSerial := None, None, Some(sample.serial);
        current := new DayAccumulator(sample, date, previousTotal);
      } else if current.id.inverter == sample.inverter && current.id.date == date {
        SameDayScan(s, i, dateOf, copied, current.View(), reconstructed, missing);
        current.Accept(sample.total);
      } else {
        StartNewDay(s, i, dateOf, sample, date);
      }
    }

    method StartNewDay(ghost s: seq<Sample>, ghost i: nat, dateOf: int -> int, sample: Sample, date: int)
      requires ValidSamples(s) && Monotone(dateOf) && 0 < i < |s| && sample == s[i] && date == dateOf(sample.at)
      requires HasRead(s, i, dateOf) && current != null && DayOf(s[i], dateOf) != current.id
      modifies this
      ensures HasRead(s, i + 1, dateOf) && fresh(current)
    {
      ghost var finished := current.View();
      Finish(s, i, dateOf);
      previousTotal := if current.lastValidTotal.Some? then current.lastValidTotal else previousTotal;
      previousDate := Some(current.id.date);
      previousSerial := Some(current.id.serial);
      ghost var until := current.id.date + 1;
      if previousSerial == Some(sample.serial) {
        SampleOrderFacts(s, i, dateOf);
        missing := ReportGap(s, i, dateOf, current.id, date, copied, reconstructed, missing);
        until := date;
      } else {
        previousTotal, previousDate, previousSerial := None, None, Some(sample.serial);
      }
      NewDayScan(s, i, dateOf, copied, finished, until, previousTotal, reconstructed, missing);
      current := new DayAccumulator(sample, date, previousTotal);
    }

    method ReadPage(ghost s: seq<Sample>, ghost from: nat, dateOf: int -> int, page: seq<Sample>)
      requires ValidSamples(s) && Monotone(dateOf) && from + |page| <= |s| && page == s[from..from + |page|]
      requires HasRead(s, from, dateOf)
      modifies this, current
      ensures HasRead(s, from + |page|, dateOf)
      ensures current == old(current) || fresh(current)
    {
      hide HasRead, ScanState;
      for j := 0 to |page|
        invariant HasRead(s, from + j, dateOf)
        invariant current == old(current) || fresh(current)
      {
        Read(s, from + j, dateOf, page[j]);
      }
    }

    /** Reads all samples in bounded pages, each starting after the last sample of the one before. */
    method ReadAll(s: seq<Sample>, dateOf: int -> int, pageSize: nat)
      requires pageSize > 0 && ValidSamples(s) && Monotone(dateOf)
      requires HasRead(s, 0, dateOf)
      modifies this, current
      ensures HasRead(s, |s|, dateOf)
    {
      var after := Key(0, I64_MIN, 0);
      var page := NextPage(s, 0, after, pageSize);
      ghost var i := 0;
      while page != []
        invariant i + |page| <= |s| && page == s[i..i + |page|] && (page == [] ==> i == |s|)
        invariant HasRead(s, i, dateOf)
        invariant current == old(current) || fresh(current)
        decreases |s| - i
      {
        ReadPage(s, i, dateOf, page);
        i := i + |page|;
        after := SampleOrder(page[|page| - 1]);
        page := NextPage(s, i, after, pageSize);
      }
    }

    /** Reports the open day. */
    method Finish(ghost s: seq<Sample>, ghost i: nat, ghost dateOf: int -> int)
      requires ValidSamples(s) && Monotone(dateOf) && 0 < i <= |s| && HasRead(s, i, dateOf)
      requires i < |s| ==> DayOf(s[i], dateOf) != current.id
      modifies this`reconstructed, this`missing
      ensures ReportsUntil(s, i, dateOf, copied, current.id.date + 1, reconstructed, missing)
    {
      FinishedDayOutcome(s, i, dateOf, copied, current.View());
      SettleOne(s, i, dateOf, copied, current.id.date, reconstructed, missing);
      reconstructed, missing := FinishDay(current, copied, reconstructed, missing);
    }
  }

  /**
   Pages through all samples once. Whatever the page size, the report lists exactly the days of
   every inverter's span, each under its declarative outcome; the reconstructed entries are the
   yields to store, in order.
   */
  method RebuildDailyYields(s: seq<Sample>, dateOf: int -> int, copied: set<DayKey>, pageSize: nat)
    returns (reconstructed: seq<Detail>, missing: seq<MissingDay>)
    requires pageSize > 0 && ValidSamples(s) && Monotone(dateOf)
    ensures Reports(s, dateOf, copied, d => InSpan(s, dateOf, d), reconstructed, missing)
  {
    var scan := new YieldScan(copied);
    scan.ReadAll(s, dateOf, pageSize);
    if scan.current != null {
      scan.Finish(s, |s|, dateOf);
      LastDayReports(s, dateOf, copied, scan.reconstructed, scan.missing);
    }
    reconstructed, missing := scan.reconstructed, scan.missing;
  }

  // ---------------------------------------------------------------- the copied days of the report

  /** A day of the report's copied list with its stored yield. */
  datatype CopiedEntry = CopiedEntry(day: DayKey, stored: DailyYield)

  predicate EarlierKey(a: DayKey, b: DayKey) { a.serial < b.serial || (a.serial == b.serial && a.date < b.date) }

  /** Every copied date once, by serial and date, with the yield stored for it. */
  ghost predicate ListsCopied(list: seq<CopiedEntry>, copied: set<DayKey>, stored: map<DayKey, DailyYield>) {
    && (forall i, j | 0 <= i < j < |list| :: EarlierKey(list[i].day, list[j].day))
    && (forall e | e in list :: e.day in copied && e.day in stored && e.stored == stored[e.day])
    && (forall d | d in copied :: exists e :: e in list && e.day == d)
  }

  predicate FirstCopied(remaining: set<DayKey>, d: DayKey) {
    d in remaining && forall e | e in remaining :: e == d || EarlierKey(d, e)
  }

  lemma {:induction false} FirstCopiedExists(remaining: set<DayKey>)
    requires remaining != {}
    ensures exists d :: FirstCopied(remaining, d)
  {
    var d :| d in remaining;
    var rest := remaining - {d};
    if rest == {} {
      assert remaining == {d};
      assert FirstCopied(remaining, d);
    } else {
      FirstCopiedExists(rest);
      var e :| FirstCopied(rest, e);
      assert remaining == rest + {d};
      if EarlierKey(d, e) {
        assert FirstCopied(remaining, d);
      } else {
        assert e in rest && (d.serial != e.serial || d.date != e.date);
        assert FirstCopied(remaining, e);
      }
    }
  }

  lemma ListGrows(list: seq<CopiedEntry>, copied: set<DayKey>, remaining: set<DayKey>, stored: map<DayKey, DailyYield>,
                  d: DayKey)
    requires ListsCopied(list, copied - remaining, stored) && remaining <= copied
    requires FirstCopied(remaining, d) && d in stored
    requires forall e, f | e in list && f in remaining :: EarlierKey(e.day, f)
    ensures ListsCopied(list + [CopiedEntry(d, stored[d])], copied - (remaining - {d}), stored)
  {
    var x := CopiedEntry(d, stored[d]);
    var more := list + [x];
    assert forall i | 0 <= i < |list| :: list[i] in list;
    forall day | day in copied - (remaining - {d})
      ensures exists e :: e in more && e.day == day
    {
      if day == d {
        assert x in more;
      } else {
        assert day in copied - remaining;
        var e :| e in list && e.day == day;
        assert e in more;
      }
    }
  }

  /** Reads back the stored yield of every copied date; fails at the first one that is not stored. */
  method ListCopied(copied: set<DayKey>, stored: map<DayKey, DailyYield>) returns (list: Option<seq<CopiedEntry>>)
    ensures list.Some? <==> forall d | d in copied :: d in stored
    ensures list.Some? ==> ListsCopied(list.value, copied, stored)
  {
    var entries: seq<CopiedEntry> := [];
    var remaining := copied;
    assert copied - remaining == {};
    while remaining != {}
      invariant remaining <= copied && ListsCopied(entries, copied - remaining, stored)
      invariant forall d | d in copied - remaining :: d in stored
      invariant forall e, d | e in entries && d in remaining :: EarlierKey(e.day, d)
      decreases remaining
    {
      FirstCopiedExists(remaining);
      var d :| FirstCopied(remaining, d);
      if d !in stored { return None; }
      ListGrows(entries, copied, remaining, stored, d);
      entries := entries + [CopiedEntry(d, stored[d])];
      remaining := remaining - {d};
    }
    assert copied - remaining == copied;
    list := Some(entries);
  }

  // ---------------------------------------------------------------- every day once

  function CopiedCount(list: seq<CopiedEntry>, day: DayId): nat {
    if list == [] then 0
    else (if list[0].day == DayKey(day.serial, day.date) then 1 else 0) + CopiedCount(list[1..], day)
  }

  lemma {:induction false} CopiedOnce(list: seq<CopiedEntry>, day: DayId)
    requires forall i, j | 0 <= i < j < |list| :: EarlierKey(list[i].day, list[j].day)
    ensures CopiedCount(list, day) == if exists e :: e in list && e.day == DayKey(day.serial, day.date) then 1 else 0
  {
    if list != [] {
      CopiedOnce(list[1..], day);
      assert forall e :: e in list <==> e == list[0] || e in list[1..];
    }
  }

  function RebuiltCount(r: seq<Detail>, day: DayId): nat {
    if r == [] then 0 else (if r[0].day == day then 1 else 0) + RebuiltCount(r[1..], day)
  }

  function MissingCount(m: seq<MissingDay>, day: DayId): nat {
    if m == [] then 0 else (if m[0].day == day then 1 else 0) + MissingCount(m[1..], day)
  }

  lemma {:induction false} RebuiltOnce(r: seq<Detail>, day: DayId)
    requires forall i, j | 0 <= i < j < |r| :: Before(r[i].day, r[j].day)
    ensures RebuiltCount(r, day) == if exists e :: e in r && e.day == day then 1 else 0
  {
    if r != [] {
      RebuiltOnce(r[1..], day);
      assert forall e :: e in r <==> e == r[0] || e in r[1..];
    }
  }

  lemma {:induction false} MissingOnce(m: seq<MissingDay>, day: DayId)
    requires forall i, j | 0 <= i < j < |m| :: Before(m[i].day, m[j].day)
    ensures MissingCount(m, day) == if exists e :: e in m && e.day == day then 1 else 0
  {
    if m != [] {
      MissingOnce(m[1..], day);
      assert forall e :: e in m <==> e == m[0] || e in m[1..];
    }
  }

  /**
   Every local day from an inverter's first to its last sampled day, gap days included, is
   reported exactly once as copied, reconstructed or missing; a day outside every span is
   reported only when it was copied, and then once.
   */
  lemma EveryDayReportedOnce(s: seq<Sample>, dateOf: int -> int, copied: set<DayKey>, stored: map<DayKey, DailyYield>,
                             list: seq<CopiedEntry>, r: seq<Detail>, m: seq<MissingDay>, day: DayId)
    requires Reports(s, dateOf, copied, d => InSpan(s, dateOf, d), r, m) && ListsCopied(list, copied, stored)
    ensures CopiedCount(list, day) + RebuiltCount(r, day) + MissingCount(m, day) ==
            if InSpan(s, dateOf, day) || DayKey(day.serial, day.date) in copied then 1 else 0
  {
    CopiedOnce(list, day);
    RebuiltOnce(r, day);
    MissingOnce(m, day);
    CopiedIsListed(list, copied, stored, DayKey(day.serial, day.date));
    hide ListsCopied;
    var o := OutcomeOf(s, dateOf, copied, day);
    if InSpan(s, dateOf, day) {
      match o
      case Copied =>
      case Missing(reason) => assert MissingDay(day, reason) in m;
      case Rebuilt(total, daily) => assert Detail(day, total, daily) in r;
    }
  }

  lemma CopiedIsListed(list: seq<CopiedEntry>, copied: set<DayKey>, stored: map<DayKey, DailyYield>, d: DayKey)
    requires ListsCopied(list, copied, stored)
    ensures (exists e :: e in list && e.day == d) <==> d in copied
  {}
}
