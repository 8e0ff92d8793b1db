/**
 Daily statistics of one inverter: grouping joined measurement rows into power samples, the
 time-weighted mean, completeness of a day, and staleness of a cached row.
 */
module DailyStatistics {
  import opened Wrappers
  import opened CheckpointKeys

  datatype PowerSample = PowerSample(at: int, ac: Cell, dc: Cell)

  datatype Channel = Ac | Dc

  function Power(s: PowerSample, ch: Channel): Cell { if ch.Ac? then s.ac else s.dc }

  ghost predicate Ascending(s: seq<PowerSample>) {
    forall i, j | 0 <= i < j < |s| :: s[i].at < s[j].at
  }

  // ---------------------------------------------------------------- rounding

  /** `n / d` rounded to the nearest integer, halves away from zero. */
  function Round(n: int, d: int): int
    requires d > 0
  {
    if n >= 0 then (2 * n + d) / (2 * d) else -((-2 * n + d) / (2 * d))
  }

  lemma Cancel(x: int, y: int, d: int)
    requires d > 0 && x * d < y * d
    ensures x < y
  {
    assert (y - x) * d > 0;
  }

  /** No integer is nearer, and at a half the one farther from zero is taken. */
  lemma RoundIsNearest(n: int, d: int)
    requires d > 0
    ensures -d <= 2 * (n - Round(n, d) * d) <= d
    ensures if n >= 0 then 2 * (n - Round(n, d) * d) < d else 2 * (n - Round(n, d) * d) > -d
  {
    if n >= 0 {
      Quotient(2 * n + d, 2 * d);
      Regroup(Round(n, d), d);
    } else {
      Quotient(-2 * n + d, 2 * d);
      Regroup(-Round(n, d), d);
      Opposite(Round(n, d), d);
    }
  }

  lemma Quotient(m: nat, d: int)
    requires d > 0
    ensures m / d * d <= m < m / d * d + d
  {}

  lemma Regroup(q: int, d: int)
    ensures q * (2 * d) == 2 * (q * d)
  {}

  lemma Opposite(q: int, d: int)
    ensures (-q) * d == -(q * d)
  {}

  /** Rounding keeps integer bounds. */
  lemma RoundBounds(n: int, d: int, a: int, b: int)
    requires d > 0 && a * d <= n <= b * d
    ensures a <= Round(n, d) <= b
  {
    RoundIsNearest(n, d);
    var r := Round(n, d);
    assert (2 * a) * d == 2 * (a * d) && (2 * r + 2) * d == 2 * (r * d) + 2 * d;
    assert (2 * r) * d == 2 * (r * d) && (2 * b + 2) * d == 2 * (b * d) + 2 * d;
    Cancel(2 * a, 2 * r + 2, d);
    Cancel(2 * r, 2 * b + 2, d);
  }

  // ---------------------------------------------------------------- weighted mean

  function MaxGap(poll: int): int { if 2 * poll > I64_MAX then I64_MAX else 2 * poll }

  /** How long sample `i` stands: until the next sample or the end of the day. */
  function Interval(s: seq<PowerSample>, end: int, i: nat): int
    requires i < |s|
  {
    var next := if i + 1 < |s| then s[i + 1].at else end;
    (if next < end then next else end) - s[i].at
  }

  predicate Accepted(s: seq<PowerSample>, end: int, poll: int, ch: Channel, i: nat)
    requires i < |s|
  {
    0 < Interval(s, end, i) <= MaxGap(poll) && Power(s[i], ch).Some?
  }

  function WeightedSum(s: seq<PowerSample>, end: int, poll: int, ch: Channel, n: nat): int
    requires n <= |s|
  {
    if n == 0 then 0
    else WeightedSum(s, end, poll, ch, n - 1)
         + if Accepted(s, end, poll, ch, n - 1) then Power(s[n - 1], ch).value * Interval(s, end, n - 1) else 0
  }

  function AcceptedDuration(s: seq<PowerSample>, end: int, poll: int, ch: Channel, n: nat): (d: int)
    requires n <= |s|
    ensures d >= 0
  {
    if n == 0 then 0
    else AcceptedDuration(s, end, poll, ch, n - 1) + if Accepted(s, end, poll, ch, n - 1) then Interval(s, end, n - 1) else 0
  }

  function Mean(s: seq<PowerSample>, end: int, poll: int, ch: Channel): Cell {
    var sum, duration := WeightedSum(s, end, poll, ch, |s|), AcceptedDuration(s, end, poll, ch, |s|);
    if duration > 0 then Some(Round(sum, duration)) else None
  }

  method WeightedMean(s: seq<PowerSample>, end: int, poll: int, ch: Channel) returns (mean: Cell)
    ensures mean == Mean(s, end, poll, ch)
  {
    var sum, duration := 0, 0;
    for i := 0 to |s|
      invariant sum == WeightedSum(s, end, poll, ch, i)
      invariant duration == AcceptedDuration(s, end, poll, ch, i)
    {
      var next := if i + 1 < |s| then s[i + 1].at else end;
      var interval := (if next < end then next else end) - s[i].at;
      if interval <= 0 || interval > MaxGap(poll) { continue; }
      if Power(s[i], ch).None? { continue; }
      sum := sum + Power(s[i], ch).value * interval;
      duration := duration + interval;
    }
    mean := if duration > 0 then Some(Round(sum, duration)) else None;
  }

  function Max(s: seq<PowerSample>, ch: Channel): Cell {
    if s == [] then None
    else
      var rest, x := Max(s[..|s| - 1], ch), Power(s[|s| - 1], ch);
      if x.None? then rest else if rest.None? || rest.value < x.value then x else rest
  }

  lemma {:induction false} MaxIsGreatest(s: seq<PowerSample>, ch: Channel)
    ensures forall i | 0 <= i < |s| && Power(s[i], ch).Some? ::
              Max(s, ch).Some? && Power(s[i], ch).value <= Max(s, ch).value
    ensures Max(s, ch).Some? ==> exists i :: 0 <= i < |s| && Power(s[i], ch) == Max(s, ch)
  {
    if s != [] {
      var front := s[..|s| - 1];
      MaxIsGreatest(front, ch);
      if Max(front, ch).Some? {
        var i :| 0 <= i < |front| && Power(front[i], ch) == Max(front, ch);
        assert Power(s[i], ch) == Max(front, ch);
      }
      if Power(s[|s| - 1], ch).Some? { assert Power(s[|s| - 1], ch) == Power(s[|s| - 1], ch); }
      forall i | 0 <= i < |s| && Power(s[i], ch).Some?
        ensures Max(s, ch).Some? && Power(s[i], ch).value <= Max(s, ch).value
      {
        if i < |front| { assert front[i] == s[i]; }
      }
    }
  }

  lemma MulMonotone(x: int, y: int, d: nat)
    requires x <= y
    ensures x * d <= y * d
  {
  }

  lemma AddWeighted(d: int, sum: int, i: nat, x: int, a: int, b: int)
    requires a * d <= sum <= b * d && a <= x <= b
    ensures a * (d + i) <= sum + x * i <= b * (d + i)
  {
    MulMonotone(a, x, i);
    MulMonotone(x, b, i);
    assert a * (d + i) == a * d + a * i && b * (d + i) == b * d + b * i;
  }

  lemma {:induction false} SumBounds(s: seq<PowerSample>, end: int, poll: int, ch: Channel, n: nat, a: int, b: int)
    requires n <= |s| && forall i | 0 <= i < n && Power(s[i], ch).Some? :: a <= Power(s[i], ch).value <= b
    ensures var d := AcceptedDuration(s, end, poll, ch, n);
            a * d <= WeightedSum(s, end, poll, ch, n) <= b * d
  {
    if n > 0 {
      SumBounds(s, end, poll, ch, n - 1, a, b);
      if Accepted(s, end, poll, ch, n - 1) {
        AddWeighted(AcceptedDuration(s, end, poll, ch, n - 1), WeightedSum(s, end, poll, ch, n - 1),
                    Interval(s, end, n - 1), Power(s[n - 1], ch).value, a, b);
      }
    }
  }

  /** A mean lies between the smallest and the largest sampled power. */
  lemma MeanWithinPowers(s: seq<PowerSample>, end: int, poll: int, ch: Channel, a: int, b: int)
    requires forall i | 0 <= i < |s| && Power(s[i], ch).Some? :: a <= Power(s[i], ch).value <= b
    requires Mean(s, end, poll, ch).Some?
    ensures a <= Mean(s, end, poll, ch).value <= b
  {
    SumBounds(s, end, poll, ch, |s|, a, b);
    RoundBounds(WeightedSum(s, end, poll, ch, |s|), AcceptedDuration(s, end, poll, ch, |s|), a, b);
  }

  // ---------------------------------------------------------------- one day's statistics

  const I32_MAX := 0x7fff_ffff

  predicate IsI32(n: int) { -0x8000_0000 <= n <= I32_MAX }

  function ExpectedCount(start: int, end: int, poll: int): Option<int> {
    if !(0 < poll <= I64_MAX) then None
    else if !IsI64(end - start) || !IsI64(end - start + poll - 1) then None
    else
      var duration := end - start + poll - 1;
      // Division truncates toward zero.
      var expected := if duration >= 0 then duration / poll else -((-duration) / poll);
      if IsI32(expected) then Some(expected) else None
  }

  /** The expected count is the day's duration in polls, rounded up. */
  lemma ExpectedCountIsCeiling(start: int, end: int, poll: int)
    requires start < end && ExpectedCount(start, end, poll).Some?
    ensures var n := ExpectedCount(start, end, poll).value; (n - 1) * poll < end - start <= n * poll
  {
    var n, duration := ExpectedCount(start, end, poll).value, end - start + poll - 1;
    assert n * poll <= duration < (n + 1) * poll;
    assert (n - 1) * poll == n * poll - poll && (n + 1) * poll == n * poll + poll;
  }

  datatype Statistics = Statistics(peakAc: Cell, peakDc: Cell, meanAc: Cell, meanDc: Cell, count: int, expected: int,
                                   first: Cell, last: Cell, complete: bool, calculatedAt: int)

  predicate HasGap(s: seq<PowerSample>, gap: int) {
    exists i | 0 <= i < |s| - 1 :: s[i + 1].at - s[i].at > gap
  }

  predicate FitsI32(c: Cell) { c.None? || IsI32(c.value) }

  function First(s: seq<PowerSample>): Cell { if s == [] then None else Some(s[0].at) }

  function Last(s: seq<PowerSample>): Cell { if s == [] then None else Some(s[|s| - 1].at) }

  predicate IsComplete(start: int, end: int, poll: int, now: int, expected: int, s: seq<PowerSample>) {
    && now >= end
    && |s| >= expected
    && s != [] && start <= s[0].at && s[0].at - start <= poll
    && s[|s| - 1].at < end && end - s[|s| - 1].at <= poll
    && !HasGap(s, MaxGap(poll))
  }

  function Calculate(start: int, end: int, poll: int, now: int, s: seq<PowerSample>): Result<Statistics> {
    var expected := ExpectedCount(start, end, poll);
    if expected.None? || |s| > I32_MAX then Failure
    else
      var peakAc, peakDc := Max(s, Ac), Max(s, Dc);
      var meanAc, meanDc := Mean(s, end, poll, Ac), Mean(s, end, poll, Dc);
      if !(FitsI32(peakAc) && FitsI32(peakDc) && FitsI32(meanAc) && FitsI32(meanDc)) then Failure
      else Success(Statistics(peakAc, peakDc, meanAc, meanDc, |s|, expected.value, First(s), Last(s),
                              IsComplete(start, end, poll, now, expected.value, s), now))
  }

  lemma {:induction false} IntervalsTelescope(s: seq<PowerSample>, end: int, poll: int, ch: Channel, n: nat)
    requires Ascending(s) && 0 < n <= |s| && s[|s| - 1].at < end && end - s[|s| - 1].at <= MaxGap(poll)
    requires !HasGap(s, MaxGap(poll)) && forall i | 0 <= i < |s| :: Power(s[i], ch).Some?
    ensures AcceptedDuration(s, end, poll, ch, n) == (if n < |s| then s[n].at else end) - s[0].at
    ensures forall i: nat | i < n :: Accepted(s, end, poll, ch, i)
  {
    if n > 1 { IntervalsTelescope(s, end, poll, ch, n - 1); }
    var next := if n < |s| then s[n].at else end;
    assert next <= end && s[n - 1].at < next;
    assert n < |s| ==> s[n - 1 + 1].at - s[n - 1].at <= MaxGap(poll);
    assert Interval(s, end, n - 1) == next - s[n - 1].at;
    assert AcceptedDuration(s, end, poll, ch, n) ==
           AcceptedDuration(s, end, poll, ch, n - 1) + Interval(s, end, n - 1);
    assert n == 1 ==> AcceptedDuration(s, end, poll, ch, 0) == 0;
  }

  /** Instant `t` is at or after some sample, and at most `gap` after it. */
  predicate IsCovered(s: seq<PowerSample>, gap: int, t: int) {
    exists i | 0 <= i < |s| :: s[i].at <= t <= s[i].at + gap
  }

  /** Every instant from the first sample to the end of a complete day is at most the gap past a sample. */
  lemma {:induction false} InstantsAreCovered(s: seq<PowerSample>, end: int, gap: int, t: int)
    requires s != [] && !HasGap(s, gap) && end - s[|s| - 1].at <= gap && s[0].at <= t < end
    ensures IsCovered(s, gap, t)
    decreases |s|
  {
    var last := |s| - 1;
    if s[last].at <= t {
      assert t <= s[last].at + gap;
    } else {
      var front := s[..last];
      assert s[last - 1 + 1].at - s[last - 1].at <= gap;
      forall i | 0 <= i < |front| - 1
        ensures front[i + 1].at - front[i].at <= gap
      {
        assert s[i + 1].at - s[i].at <= gap;
      }
      InstantsAreCovered(front, s[last].at, gap, t);
      var i :| 0 <= i < |front| && front[i].at <= t <= front[i].at + gap;
      assert s[i].at <= t <= s[i].at + gap;
    }
  }

  /**
   A day flagged complete is covered: the first sample is at most one poll into the day, every
   later instant is at most two polls past a sample, and where every sample has the power all
   intervals count, their lengths add up to the day from the first sample on, and the mean lies
   between the powers.
   */
  lemma CompleteDayIsCovered(start: int, end: int, poll: int, now: int, s: seq<PowerSample>, ch: Channel, a: int, b: int)
    requires Ascending(s)
    requires Calculate(start, end, poll, now, s).Success? && Calculate(start, end, poll, now, s).value.complete
    ensures forall t | s[0].at <= t < end :: IsCovered(s, 2 * poll, t)
    ensures start <= s[0].at <= start + poll
    ensures (forall i | 0 <= i < |s| :: Power(s[i], ch).Some? && a <= Power(s[i], ch).value <= b) ==>
              && (forall i: nat | i < |s| :: Accepted(s, end, poll, ch, i))
              && AcceptedDuration(s, end, poll, ch, |s|) == end - s[0].at >= end - start - poll
              && Mean(s, end, poll, ch).Some? && a <= Mean(s, end, poll, ch).value <= b
  {
    var gap := MaxGap(poll);
    assert poll <= gap <= 2 * poll;
    forall t | s[0].at <= t < end
      ensures IsCovered(s, 2 * poll, t)
    {
      InstantsAreCovered(s, end, gap, t);
      var i :| 0 <= i < |s| && s[i].at <= t <= s[i].at + gap;
      assert t <= s[i].at + 2 * poll;
    }
    if forall i | 0 <= i < |s| :: Power(s[i], ch).Some? && a <= Power(s[i], ch).value <= b {
      IntervalsTelescope(s, end, poll, ch, |s|);
      MeanWithinPowers(s, end, poll, ch, a, b);
    }
  }

  // ---------------------------------------------------------------- staleness

  /** A day's measurements in time order, from the table of its inverter's measurements by instant. */
  ghost predicate IsDay(m: map<int, PowerSample>, start: int, end: int, s: seq<PowerSample>) {
    && Ascending(s)
    && (forall i | 0 <= i < |s| :: start <= s[i].at < end && s[i].at in m && m[s[i].at] == s[i])
    && (forall t | t in m && start <= t < end :: m[t].at == t && m[t] in s)
  }

  /** No measurement of the day that was stored has been changed or deleted. */
  ghost predicate KeepsDay(m: map<int, PowerSample>, m': map<int, PowerSample>, start: int, end: int) {
    forall t | t in m && start <= t < end :: t in m' && m'[t] == m[t]
  }

  /** The day was measured at the same instants. */
  ghost predicate SameInstants(m: map<int, PowerSample>, m': map<int, PowerSample>, start: int, end: int) {
    forall t | start <= t < end :: t in m <==> t in m'
  }

  datatype CacheRow = CacheRow(count: int, lastMeasuredAt: Cell, expected: Cell)

  function CacheOf(stats: Statistics): CacheRow { CacheRow(stats.count, stats.last, Some(stats.expected)) }

  predicate IsStale(row: CacheRow, current: seq<PowerSample>, expected: int) {
    row.count != |current| || row.lastMeasuredAt != Last(current) || row.expected != Some(expected)
  }

  /** Of two ascending sequences, one contained in the other, equal length means equality. */
  lemma {:induction false} EqualSizeSubset(s: seq<PowerSample>, t: seq<PowerSample>)
    requires Ascending(s) && Ascending(t) && forall i | 0 <= i < |s| :: s[i] in t
    ensures |s| <= |t| && (|s| == |t| ==> s == t)
  {
    if t == [] {
      if s != [] { NoMembers(s, t); }
    } else if s != [] {
      var front, x := t[..|t| - 1], t[|t| - 1];
      forall i | 0 <= i < |s|
        ensures s[i] == x || s[i] in front
      {
        var j :| 0 <= j < |t| && t[j] == s[i];
        if j < |front| { assert front[j] == s[i]; }
      }
      if s[|s| - 1] == x {
        var sf := s[..|s| - 1];
        forall i | 0 <= i < |sf|
          ensures sf[i] in front
        {
          assert s[i] != x;
        }
        EqualSizeSubset(sf, front);
        assert s == sf + [x] && t == front + [x];
      } else {
        NeverGreatest(s, t);
        EqualSizeSubset(s, front);
      }
    }
  }

  lemma NoMembers(s: seq<PowerSample>, t: seq<PowerSample>)
    requires s != [] && forall i | 0 <= i < |s| :: s[i] in t
    ensures t != []
  {
    assert s[0] in t;
  }

  /** A sequence whose last element is not the other's greatest does not contain it. */
  lemma NeverGreatest(s: seq<PowerSample>, t: seq<PowerSample>)
    requires Ascending(s) && Ascending(t) && s != [] && t != []
    requires s[|s| - 1] in t && s[|s| - 1] != t[|t| - 1]
    ensures forall i | 0 <= i < |s| :: s[i] != t[|t| - 1]
  {
    var j :| 0 <= j < |t| && t[j] == s[|s| - 1];
    assert t[j].at < t[|t| - 1].at;
    forall i | 0 <= i < |s|
      ensures s[i].at <= s[|s| - 1].at
    {
    }
  }

  function Instants(s: seq<PowerSample>): (r: seq<PowerSample>)
    ensures |r| == |s| && forall i | 0 <= i < |s| :: r[i] == PowerSample(s[i].at, None, None)
  {
    seq(|s|, i requires 0 <= i < |s| => PowerSample(s[i].at, None, None))
  }

  lemma InstantsContained(m: map<int, PowerSample>, m': map<int, PowerSample>, start: int, end: int,
                          s: seq<PowerSample>, s': seq<PowerSample>)
    requires IsDay(m, start, end, s) && IsDay(m', start, end, s') && SameInstants(m, m', start, end)
    ensures Ascending(Instants(s)) && forall i | 0 <= i < |s| :: Instants(s)[i] in Instants(s')
  {
    forall i | 0 <= i < |s|
      ensures Instants(s)[i] in Instants(s')
    {
      var t := s[i].at;
      assert m'[t] in s';
      var j :| 0 <= j < |s'| && s'[j] == m'[t];
      assert s'[j].at == t;
      assert Instants(s')[j] == Instants(s)[i];
    }
  }

  lemma SameInstantsMeanSameEnds(m: map<int, PowerSample>, m': map<int, PowerSample>, start: int, end: int,
                                 s: seq<PowerSample>, s': seq<PowerSample>)
    requires IsDay(m, start, end, s) && IsDay(m', start, end, s') && SameInstants(m, m', start, end)
    ensures |s| == |s'| && Last(s) == Last(s')
  {
    InstantsContained(m, m', start, end, s, s');
    InstantsContained(m', m, start, end, s', s);
    EqualSizeSubset(Instants(s), Instants(s'));
    EqualSizeSubset(Instants(s'), Instants(s));
    if s != [] { assert Instants(s)[|s| - 1] == Instants(s')[|s| - 1]; }
  }

  /**
   The day's measurements and the expected count are unchanged if and only if the cached row is
   not stale and no stored measurement of the day was changed or deleted. Nothing that leaves the
   instants of the day and the expected count as they were is ever noticed.
   */
  lemma UnchangedExactlyWhen(m: map<int, PowerSample>, m': map<int, PowerSample>, start: int, end: int,
                             s: seq<PowerSample>, s': seq<PowerSample>, stats: Statistics, expected: int)
    requires IsDay(m, start, end, s) && IsDay(m', start, end, s')
    requires stats.count == |s| && stats.last == Last(s)
    ensures s == s' && stats.expected == expected <==>
            !IsStale(CacheOf(stats), s', expected) && KeepsDay(m, m', start, end)
    ensures SameInstants(m, m', start, end) && stats.expected == expected ==> !IsStale(CacheOf(stats), s', expected)
  {
    if KeepsDay(m, m', start, end) {
      forall i | 0 <= i < |s|
        ensures s[i] in s'
      {
        assert m'[s[i].at] == s[i];
      }
      EqualSizeSubset(s, s');
    }
    if s == s' {
      forall t | t in m && start <= t < end
        ensures t in m' && m'[t] == m[t]
      {
        var i :| 0 <= i < |s| && s[i] == m[t];
        assert s'[i].at == t;
      }
    }
    if SameInstants(m, m', start, end) { SameInstantsMeanSameEnds(m, m', start, end, s, s'); }
  }

  /** A cached row that is not stale, of a day nothing of which was rewritten, is a fresh calculation but for the clock. */
  lemma FreshUnlessStale(m: map<int, PowerSample>, m': map<int, PowerSample>, start: int, end: int, poll: int,
                         cachedAt: int, now: int, s: seq<PowerSample>, s': seq<PowerSample>)
    requires IsDay(m, start, end, s) && IsDay(m', start, end, s') && KeepsDay(m, m', start, end) && cachedAt <= now
    requires Calculate(start, end, poll, cachedAt, s).Success? && ExpectedCount(start, end, poll).Some?
    requires var cached := Calculate(start, end, poll, cachedAt, s).value;
             !IsStale(CacheOf(cached), s', ExpectedCount(start, end, poll).value)
    ensures var cached, fresh' := Calculate(start, end, poll, cachedAt, s), Calculate(start, end, poll, now, s');
            && fresh'.Success?
            && fresh'.value.(complete := cached.value.complete, calculatedAt := cached.value.calculatedAt) == cached.value
            && (cached.value.complete ==> fresh'.value.complete)
  {
    var cached := Calculate(start, end, poll, cachedAt, s).value;
    UnchangedExactlyWhen(m, m', start, end, s, s', cached, ExpectedCount(start, end, poll).value);
  }

  /** A day whose only measurement was updated after its statistics had been cached. */
  lemma UpdatedMeasurementIsNotNoticed()
    ensures var s, s' := [PowerSample(10, Some(5), None)], [PowerSample(10, Some(9), None)];
            var cached, fresh' := Calculate(0, 100, 50, 100, s), Calculate(0, 100, 50, 100, s');
            && IsDay(map[10 := s[0]], 0, 100, s) && IsDay(map[10 := s'[0]], 0, 100, s')
            && cached.Success? && fresh'.Success? && ExpectedCount(0, 100, 50) == Some(2)
            && !IsStale(CacheOf(cached.value), s', 2)
            && cached.value.meanAc == Some(5) && fresh'.value.meanAc == Some(9)
  {
    SingleSample(5);
    SingleSample(9);
    hide Calculate, ExpectedCount;
    var s, s' := [PowerSample(10, Some(5), None)], [PowerSample(10, Some(9), None)];
    assert s[0] in s && s'[0] in s';
  }

  lemma SingleSample(x: int)
    requires 0 <= x < 10
    ensures var s := [PowerSample(10, Some(x), None)];
            var r := Calculate(0, 100, 50, 100, s);
            && ExpectedCount(0, 100, 50) == Some(2)
            && r.Success? && r.value.meanAc == Some(x) && r.value.count == 1 && r.value.expected == 2 && r.value.last == Some(10)
  {
    var s := [PowerSample(10, Some(x), None)];
    assert s[..0] == [];
    assert Max(s, Ac) == Some(x) && Max(s, Dc) == None;
    assert WeightedSum(s, 100, 50, Ac, 1) == x * 90 && AcceptedDuration(s, 100, 50, Ac, 1) == 90 by {
      assert Accepted(s, 100, 50, Ac, 0) && Interval(s, 100, 0) == 90;
      assert WeightedSum(s, 100, 50, Ac, 0) == 0 && AcceptedDuration(s, 100, 50, Ac, 0) == 0;
    }
    assert Round(x * 90, 90) == x;
    assert AcceptedDuration(s, 100, 50, Dc, 1) == 0 by {
      assert !Accepted(s, 100, 50, Dc, 0) && AcceptedDuration(s, 100, 50, Dc, 0) == 0;
    }
  }

  // ---------------------------------------------------------------- another poll interval

  /** Another poll interval with the same expected count is never noticed; it matters when a mean or completeness changes. */
  lemma PollChangeMattersExactlyWhen(start: int, end: int, poll: int, poll': int, now: int, s: seq<PowerSample>)
    requires Calculate(start, end, poll, now, s).Success? && Calculate(start, end, poll', now, s).Success?
    requires ExpectedCount(start, end, poll) == ExpectedCount(start, end, poll')
    ensures ExpectedCount(start, end, poll').Some?
    ensures var cached, expected := Calculate(start, end, poll, now, s).value, ExpectedCount(start, end, poll').value;
            && !IsStale(CacheOf(cached), s, expected)
            && (Calculate(start, end, poll', now, s).value == cached <==>
                && Mean(s, end, poll, Ac) == Mean(s, end, poll', Ac) && Mean(s, end, poll, Dc) == Mean(s, end, poll', Dc)
                && (IsComplete(start, end, poll, now, expected, s) <==> IsComplete(start, end, poll', now, expected, s)))
  {
    hide Mean, IsComplete, Max;
  }

  /** No interval between samples is short enough for one poll interval only. */
  predicate AcceptAlike(s: seq<PowerSample>, end: int, poll: int, poll': int) {
    forall i: nat | i < |s| && Interval(s, end, i) > 0 ::
      Interval(s, end, i) <= MaxGap(poll) <==> Interval(s, end, i) <= MaxGap(poll')
  }

  lemma {:induction false} AlikeSums(s: seq<PowerSample>, end: int, poll: int, poll': int, ch: Channel, n: nat)
    requires n <= |s| && AcceptAlike(s, end, poll, poll')
    ensures WeightedSum(s, end, poll, ch, n) == WeightedSum(s, end, poll', ch, n)
    ensures AcceptedDuration(s, end, poll, ch, n) == AcceptedDuration(s, end, poll', ch, n)
  {
    if n > 0 {
      AlikeSums(s, end, poll, poll', ch, n - 1);
      assert Accepted(s, end, poll, ch, n - 1) <==> Accepted(s, end, poll', ch, n - 1);
    }
  }

  /** Then the means are the same. */
  lemma AlikeMeans(s: seq<PowerSample>, end: int, poll: int, poll': int, ch: Channel)
    requires AcceptAlike(s, end, poll, poll')
    ensures Mean(s, end, poll, ch) == Mean(s, end, poll', ch)
  {
    AlikeSums(s, end, poll, poll', ch, |s|);
  }

  /** A day of 288 polls of 300 s and of 301 s: the interval of 601 s between its samples counts for the latter only. */
  lemma PollChangeIsNotNoticed()
    ensures var s := [PowerSample(0, Some(10), None), PowerSample(601, Some(20), None)];
            var cached, fresh' := Calculate(0, 86400, 300, 86400, s), Calculate(0, 86400, 301, 86400, s);
            && ExpectedCount(0, 86400, 300) == ExpectedCount(0, 86400, 301) == Some(288)
            && cached.Success? && fresh'.Success? && !IsStale(CacheOf(cached.value), s, 288)
            && cached.value.meanAc == None && fresh'.value.meanAc == Some(10)
  {
    var s := [PowerSample(0, Some(10), None), PowerSample(601, Some(20), None)];
    PeaksOfTwo(s);
    MeansOfTwo(s, 300);
    MeansOfTwo(s, 301);
    hide Max, Mean;
  }

  lemma PeaksOfTwo(s: seq<PowerSample>)
    requires s == [PowerSample(0, Some(10), None), PowerSample(601, Some(20), None)]
    ensures Max(s, Ac) == Some(20) && Max(s, Dc) == None
  {
    var one := s[..1];
    assert |one[..0]| == 0 && one[0] == s[0];
    assert Max(one, Ac) == Some(10) && Max(one, Dc) == None;
  }

  lemma MeansOfTwo(s: seq<PowerSample>, poll: int)
    requires s == [PowerSample(0, Some(10), None), PowerSample(601, Some(20), None)] && 300 <= poll <= 301
    ensures Mean(s, 86400, poll, Ac) == (if poll == 300 then None else Some(10)) && Mean(s, 86400, poll, Dc) == None
  {
    assert Interval(s, 86400, 0) == 601 && Interval(s, 86400, 1) == 85799;
    assert WeightedSum(s, 86400, poll, Ac, 1) == (if poll == 300 then 0 else 6010) &&
           AcceptedDuration(s, 86400, poll, Ac, 1) == (if poll == 300 then 0 else 601) by {
      assert WeightedSum(s, 86400, poll, Ac, 0) == 0 && AcceptedDuration(s, 86400, poll, Ac, 0) == 0;
    }
    assert AcceptedDuration(s, 86400, poll, Dc, 2) == 0 by {
      assert AcceptedDuration(s, 86400, poll, Dc, 0) == 0 && AcceptedDuration(s, 86400, poll, Dc, 1) == 0;
    }
    assert Round(6010, 601) == 10;
  }

  /** Some sample of `t` was taken after all of `s`. */
  ghost predicate GoesOn(s: seq<PowerSample>, t: seq<PowerSample>) {
    exists i :: 0 <= i < |t| && forall j | 0 <= j < |s| :: s[j].at < t[i].at
  }

  /**
   A cached row is stale exactly when the day has another number of samples or another last sample than
   at its calculation, or another number of polls is expected.
   */
  lemma StaleExactlyWhen(start: int, end: int, poll: int, now: int, s: seq<PowerSample>, t: seq<PowerSample>, expected: int)
    requires Ascending(s) && Ascending(t) && Calculate(start, end, poll, now, s).Success?
    ensures var r := Calculate(start, end, poll, now, s).value;
            IsStale(CacheOf(r), t, expected) <==>
              |s| != |t| || GoesOn(s, t) || GoesOn(t, s) || r.expected != expected
  {
    hide *;
    StaleMeans(start, end, poll, now, s, t, expected);
    LastDiffers(s, t);
    LastDiffers(t, s);
  }

  lemma StaleMeans(start: int, end: int, poll: int, now: int, s: seq<PowerSample>, t: seq<PowerSample>, expected: int)
    requires Calculate(start, end, poll, now, s).Success?
    ensures var r := Calculate(start, end, poll, now, s).value;
            IsStale(CacheOf(r), t, expected) <==> |s| != |t| || Last(s) != Last(t) || r.expected != expected
  {
    hide Mean, Max, IsComplete, ExpectedCount, Last;
  }

  lemma LastDiffers(s: seq<PowerSample>, t: seq<PowerSample>)
    requires Ascending(s) && Ascending(t)
    ensures GoesOn(s, t) <==> Last(t).Some? && (Last(s).None? || Last(s).value < Last(t).value)
    ensures (Last(s).None? <==> |s| == 0) && (Last(t).None? <==> |t| == 0)
  {
    assert forall j | 0 <= j < |s| :: s[j].at <= s[|s| - 1].at;
    if t != [] && (s == [] || s[|s| - 1].at < t[|t| - 1].at) {
      assert forall j | 0 <= j < |s| :: s[j].at < t[|t| - 1].at;
      assert GoesOn(s, t);
    }
    if GoesOn(s, t) {
      var i :| 0 <= i < |t| && forall j | 0 <= j < |s| :: s[j].at < t[i].at;
      assert t[i].at <= t[|t| - 1].at;
    }
  }

  // ---------------------------------------------------------------- the fields of a calculated row

  /** The value is the greatest of these powers; none when no sample has one. */
  ghost predicate IsPeak(peak: Cell, powers: seq<Cell>) {
    && (peak.None? <==> forall i | 0 <= i < |powers| :: powers[i].None?)
    && (peak.Some? ==> peak in powers && forall i | 0 <= i < |powers| && powers[i].Some? :: powers[i].value <= peak.value)
  }

  function AcPowers(s: seq<PowerSample>): seq<Cell> { seq(|s|, i requires 0 <= i < |s| => s[i].ac) }

  function DcPowers(s: seq<PowerSample>): seq<Cell> { seq(|s|, i requires 0 <= i < |s| => s[i].dc) }

  lemma PeakIsMax(s: seq<PowerSample>, ch: Channel, powers: seq<Cell>)
    requires |powers| == |s| && forall i | 0 <= i < |s| :: powers[i] == Power(s[i], ch)
    ensures IsPeak(Max(s, ch), powers)
  {
    MaxIsGreatest(s, ch);
    hide Max, Power;
    if Max(s, ch).Some? {
      var i :| 0 <= i < |s| && Power(s[i], ch) == Max(s, ch);
      assert powers[i] == Max(s, ch);
    }
  }

  /** The peaks of a row are those of their own powers. */
  lemma PeaksAreGreatest(start: int, end: int, poll: int, now: int, s: seq<PowerSample>)
    requires Calculate(start, end, poll, now, s).Success?
    ensures var r := Calculate(start, end, poll, now, s).value;
            IsPeak(r.peakAc, AcPowers(s)) && IsPeak(r.peakDc, DcPowers(s))
  {
    PeakIsMax(s, Ac, AcPowers(s));
    PeakIsMax(s, Dc, DcPowers(s));
    hide Max, Mean, IsComplete, IsPeak, AcPowers, DcPowers, ExpectedCount;
  }

  /** Sample `i` stands for this long: until the next sample or the end of the day, whichever comes first. */
  predicate StandsFor(s: seq<PowerSample>, end: int, i: nat, length: int) {
    && i < |s| && s[i].at + length <= end && (i + 1 < |s| ==> s[i].at + length <= s[i + 1].at)
    && (s[i].at + length == end || (i + 1 < |s| && s[i].at + length == s[i + 1].at))
  }

  /** Sample `i` has this power, and it counts: it stands for a positive time of at most two polls. */
  predicate Counts(s: seq<PowerSample>, powers: seq<Cell>, end: int, poll: int, i: nat) {
    && i < |s| && i < |powers| && powers[i].Some?
    && exists length | 0 < length <= 2 * poll && length <= I64_MAX :: StandsFor(s, end, i, length)
  }

  lemma CountsIsAccepted(s: seq<PowerSample>, powers: seq<Cell>, end: int, poll: int, ch: Channel, i: nat)
    requires |powers| == |s| && forall j | 0 <= j < |s| :: powers[j] == Power(s[j], ch)
    requires i < |s|
    ensures Counts(s, powers, end, poll, i) <==> Accepted(s, end, poll, ch, i)
  {
    hide Power;
    assert StandsFor(s, end, i, Interval(s, end, i));
    forall length | StandsFor(s, end, i, length)
      ensures length == Interval(s, end, i)
    {}
  }

  lemma {:induction false} AcceptedExists(s: seq<PowerSample>, end: int, poll: int, ch: Channel, n: nat)
    requires n <= |s|
    ensures AcceptedDuration(s, end, poll, ch, n) > 0 <==> exists i: nat :: i < n && Accepted(s, end, poll, ch, i)
  {
    if n > 0 {
      AcceptedExists(s, end, poll, ch, n - 1);
      assert Accepted(s, end, poll, ch, n - 1) ==> Interval(s, end, n - 1) > 0;
    }
  }

  lemma {:induction false} AcceptedBounds(s: seq<PowerSample>, end: int, poll: int, ch: Channel, n: nat, a: int, b: int)
    requires n <= |s| && forall i: nat | i < n && Accepted(s, end, poll, ch, i) :: a <= Power(s[i], ch).value <= b
    ensures var d := AcceptedDuration(s, end, poll, ch, n);
            a * d <= WeightedSum(s, end, poll, ch, n) <= b * d
  {
    if n > 0 {
      AcceptedBounds(s, end, poll, ch, n - 1, a, b);
      if Accepted(s, end, poll, ch, n - 1) {
        AddWeighted(AcceptedDuration(s, end, poll, ch, n - 1), WeightedSum(s, end, poll, ch, n - 1),
                    Interval(s, end, n - 1), Power(s[n - 1], ch).value, a, b);
      }
    }
  }

  /** The mean exists exactly when a power counts, and lies between those that do. */
  ghost predicate IsMeanOf(mean: Cell, s: seq<PowerSample>, powers: seq<Cell>, end: int, poll: int) {
    && (mean.Some? <==> exists i: nat :: Counts(s, powers, end, poll, i))
    && (mean.Some? ==> forall a, b | Bounds(s, powers, end, poll, a, b) :: a <= mean.value <= b)
  }

  ghost predicate Bounds(s: seq<PowerSample>, powers: seq<Cell>, end: int, poll: int, a: int, b: int) {
    forall i: nat | Counts(s, powers, end, poll, i) :: a <= powers[i].value <= b
  }

  lemma MeanCounts(s: seq<PowerSample>, powers: seq<Cell>, end: int, poll: int, ch: Channel)
    requires |powers| == |s| && forall j | 0 <= j < |s| :: powers[j] == Power(s[j], ch)
    ensures IsMeanOf(Mean(s, end, poll, ch), s, powers, end, poll)
  {
    forall i: nat | i < |s|
      ensures Counts(s, powers, end, poll, i) <==> Accepted(s, end, poll, ch, i)
    {
      CountsIsAccepted(s, powers, end, poll, ch, i);
    }
    AcceptedExists(s, end, poll, ch, |s|);
    var mean, d := Mean(s, end, poll, ch), AcceptedDuration(s, end, poll, ch, |s|);
    hide Accepted, Power, Round;
    assert forall i: nat | Counts(s, powers, end, poll, i) :: i < |s|;
    if mean.Some? {
      forall a, b | Bounds(s, powers, end, poll, a, b)
        ensures a <= mean.value <= b
      {
        hide Counts;
        AcceptedBounds(s, end, poll, ch, |s|, a, b);
        RoundBounds(WeightedSum(s, end, poll, ch, |s|), d, a, b);
      }
    }
  }

  /** The means of a row are those of their own powers. */
  lemma MeansCount(start: int, end: int, poll: int, now: int, s: seq<PowerSample>)
    requires Calculate(start, end, poll, now, s).Success?
    ensures var r := Calculate(start, end, poll, now, s).value;
            && IsMeanOf(r.meanAc, s, AcPowers(s), end, poll) && IsMeanOf(r.meanDc, s, DcPowers(s), end, poll)
            && r.meanAc == Mean(s, end, poll, Ac) && r.meanDc == Mean(s, end, poll, Dc)
  {
    MeanCounts(s, AcPowers(s), end, poll, Ac);
    MeanCounts(s, DcPowers(s), end, poll, Dc);
    hide Max, Mean, IsComplete, IsMeanOf, ExpectedCount;
  }

  /** The count, the least and the greatest instant, and the expected count of a row, which is its duration in polls rounded up. */
  lemma RowCounts(start: int, end: int, poll: int, now: int, s: seq<PowerSample>)
    requires Ascending(s) && start < end && Calculate(start, end, poll, now, s).Success?
    ensures var r := Calculate(start, end, poll, now, s).value;
            && r.count == |s| && r.calculatedAt == now
            && (r.first.None? <==> s == []) && (r.last.None? <==> s == [])
            && (s != [] ==> exists i :: 0 <= i < |s| && s[i].at == r.first.value)
            && (s != [] ==> exists i :: 0 <= i < |s| && s[i].at == r.last.value)
            && (forall i | 0 <= i < |s| :: r.first.value <= s[i].at <= r.last.value)
            && (r.expected - 1) * poll < end - start <= r.expected * poll
  {
    ExpectedCountIsCeiling(start, end, poll);
    hide Max, Mean, IsComplete, ExpectedCount;
    if s != [] { assert s[0].at == First(s).value && s[|s| - 1].at == Last(s).value; }
  }

  /** Every sample but the greatest is followed within two polls. */
  ghost predicate WithoutGap(s: seq<PowerSample>, poll: int) { forall i | 0 <= i < |s| :: IsLast(s, i) || HasSuccessor(s, poll, i) }

  predicate IsLast(s: seq<PowerSample>, i: nat)
    requires i < |s|
  {
    forall j | 0 <= j < |s| :: s[j].at <= s[i].at
  }

  predicate HasSuccessor(s: seq<PowerSample>, poll: int, i: nat)
    requires i < |s|
  {
    exists j :: 0 <= j < |s| && s[i].at < s[j].at <= s[i].at + 2 * poll && s[j].at - s[i].at <= I64_MAX
  }

  lemma SuccessorIsNear(s: seq<PowerSample>, poll: int, i: nat)
    requires Ascending(s) && i < |s|
    ensures IsLast(s, i) <==> i == |s| - 1
    ensures HasSuccessor(s, poll, i) <==> i + 1 < |s| && s[i + 1].at - s[i].at <= MaxGap(poll)
  {
    if i + 1 < |s| && s[i + 1].at - s[i].at <= MaxGap(poll) { assert s[i].at < s[i + 1].at <= s[i].at + 2 * poll; }
    if HasSuccessor(s, poll, i) {
      var j :| 0 <= j < |s| && s[i].at < s[j].at <= s[i].at + 2 * poll && s[j].at - s[i].at <= I64_MAX;
      assert j > i;
    }
  }

  lemma GapOrNot(s: seq<PowerSample>, poll: int)
    requires Ascending(s)
    ensures WithoutGap(s, poll) <==> !HasGap(s, MaxGap(poll))
  {
    forall i: nat | i < |s|
      ensures IsLast(s, i) <==> i == |s| - 1
      ensures HasSuccessor(s, poll, i) <==> i + 1 < |s| && s[i + 1].at - s[i].at <= MaxGap(poll)
    {
      SuccessorIsNear(s, poll, i);
    }
    hide IsLast, HasSuccessor, MaxGap;
    if HasGap(s, MaxGap(poll)) {
      var i :| 0 <= i < |s| - 1 && s[i + 1].at - s[i].at > MaxGap(poll);
      assert !IsLast(s, i) && !HasSuccessor(s, poll, i);
    } else {
      forall i | 0 <= i < |s|
        ensures IsLast(s, i) || HasSuccessor(s, poll, i)
      {
        if i < |s| - 1 { assert s[i + 1].at - s[i].at <= MaxGap(poll); }
      }
    }
  }

  /**
   A row is complete if and only if the day is over, at least the expected number of samples was taken,
   all of them within the day, one in its first and one in its last poll, and none without a successor
   within two polls but the last.
   */
  lemma CompleteExactlyWhen(start: int, end: int, poll: int, now: int, s: seq<PowerSample>)
    requires Ascending(s) && Calculate(start, end, poll, now, s).Success?
    ensures var r := Calculate(start, end, poll, now, s).value;
            r.complete <==>
              && now >= end && |s| >= r.expected
              && (forall i | 0 <= i < |s| :: start <= s[i].at < end)
              && (exists i :: 0 <= i < |s| && s[i].at <= start + poll)
              && (exists i :: 0 <= i < |s| && s[i].at >= end - poll)
              && WithoutGap(s, poll)
  {
    GapOrNot(s, poll);
    hide Max, Mean, HasGap, WithoutGap;
    if s != [] {
      assert forall i | 0 <= i < |s| :: s[0].at <= s[i].at <= s[|s| - 1].at;
      assert s[0].at <= start + poll ==> exists i :: 0 <= i < |s| && s[i].at <= start + poll;
      assert s[|s| - 1].at >= end - poll ==> exists i :: 0 <= i < |s| && s[i].at >= end - poll;
    }
  }

  lemma ExpectedCountFits(start: int, end: int, poll: int)
    requires start < end
    ensures ExpectedCount(start, end, poll).Some? <==>
            0 < poll <= I64_MAX && end - start + poll - 1 <= I64_MAX && end - start <= I32_MAX * poll
  {
    if 0 < poll <= I64_MAX && end - start + poll - 1 <= I64_MAX {
      var d := end - start + poll - 1;
      CeilingAtMost(d, poll, I32_MAX);
    }
  }

  lemma CeilingAtMost(d: nat, poll: int, n: nat)
    requires poll > 0
    ensures d / poll <= n <==> d - poll + 1 <= n * poll
  {
    assert d / poll * poll <= d < d / poll * poll + poll;
    if d / poll <= n {
      MulMonotone(d / poll, n, poll);
    } else {
      MulMonotone(n + 1, d / poll, poll);
      assert (n + 1) * poll == n * poll + poll;
    }
  }

  /** No power is too great for a 32-bit column, and unless there is none, some is not too small. */
  ghost predicate PeakFits(powers: seq<Cell>) {
    && (forall i | 0 <= i < |powers| && powers[i].Some? :: powers[i].value <= I32_MAX)
    && ((forall i | 0 <= i < |powers| :: powers[i].None?)
        || exists i :: 0 <= i < |powers| && powers[i].Some? && powers[i].value >= -0x8000_0000)
  }

  lemma PeakFitsExactlyWhen(s: seq<PowerSample>, ch: Channel, powers: seq<Cell>)
    requires |powers| == |s| && forall i | 0 <= i < |s| :: powers[i] == Power(s[i], ch)
    ensures FitsI32(Max(s, ch)) <==> PeakFits(powers)
  {
    PeakIsMax(s, ch, powers);
    hide Max, Power;
    if Max(s, ch).Some? {
      var i :| 0 <= i < |powers| && powers[i] == Max(s, ch);
    }
  }

  /** A day is calculated if and only if the expected count, the number of samples, the peaks and the means fit their columns. */
  lemma CalculatesExactlyWhen(start: int, end: int, poll: int, now: int, s: seq<PowerSample>)
    requires start < end
    ensures Calculate(start, end, poll, now, s).Success? <==>
              && 0 < poll <= I64_MAX && end - start + poll - 1 <= I64_MAX && end - start <= I32_MAX * poll
              && |s| <= I32_MAX && PeakFits(AcPowers(s)) && PeakFits(DcPowers(s))
              && FitsI32(Mean(s, end, poll, Ac)) && FitsI32(Mean(s, end, poll, Dc))
  {
    ExpectedCountFits(start, end, poll);
    PeakFitsExactlyWhen(s, Ac, AcPowers(s));
    PeakFitsExactlyWhen(s, Dc, DcPowers(s));
    hide Max, Mean, IsComplete, PeakFits, ExpectedCount;
  }
}
