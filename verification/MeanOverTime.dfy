/**
 What the time-weighted means of a day are: the average, over the seconds of the day, of the power
 that stands at each second.
 */
module MeanOverTime {
  import opened Wrappers
  import opened DailyStatistics

  /** The sample that stands at a second: the last one at or before it. */
  function StandingAt(s: seq<PowerSample>, t: int): (r: Option<nat>)
    ensures r.Some? ==> r.value < |s|
  {
    if s == [] then None
    else if s[|s| - 1].at <= t then Some(|s| - 1)
    else StandingAt(s[..|s| - 1], t)
  }

  /** Its power, if it has one and stands for at most two polls. */
  function PowerAt(s: seq<PowerSample>, powers: seq<Cell>, end: int, poll: int, t: int): Cell
    requires |powers| == |s|
  {
    match StandingAt(s, t)
    case None => None
    case Some(i) => if Counts(s, powers, end, poll, i) then powers[i] else None
  }

  /** The sum of these powers over the seconds from `from` to before `until`. */
  function PowerSum(s: seq<PowerSample>, powers: seq<Cell>, end: int, poll: int, from: int, until: int): int
    requires |powers| == |s|
    decreases until - from
  {
    if from >= until then 0
    else
      var power := PowerAt(s, powers, end, poll, until - 1);
      PowerSum(s, powers, end, poll, from, until - 1) + if power.Some? then power.value else 0
  }

  /** How many of these seconds have a power. */
  function Seconds(s: seq<PowerSample>, powers: seq<Cell>, end: int, poll: int, from: int, until: int): (n: nat)
    requires |powers| == |s|
    decreases until - from
  {
    if from >= until then 0
    else Seconds(s, powers, end, poll, from, until - 1) + if PowerAt(s, powers, end, poll, until - 1).Some? then 1 else 0
  }

  lemma {:induction false} StandsUntilNext(s: seq<PowerSample>, i: nat, t: int)
    requires Ascending(s) && i < |s| && s[i].at <= t && (i + 1 < |s| ==> t < s[i + 1].at)
    ensures StandingAt(s, t) == Some(i)
  {
    if i < |s| - 1 {
      assert s[i + 1].at <= s[|s| - 1].at;
      StandsUntilNext(s[..|s| - 1], i, t);
    }
  }

  lemma {:induction false} NothingStands(s: seq<PowerSample>, t: int)
    requires forall i | 0 <= i < |s| :: t < s[i].at
    ensures StandingAt(s, t).None?
  {
    if s != [] { NothingStands(s[..|s| - 1], t); }
  }

  lemma {:induction false} BeforeTheFirst(s: seq<PowerSample>, powers: seq<Cell>, end: int, poll: int, from: int, until: int)
    requires |powers| == |s| && forall i | 0 <= i < |s| :: until <= s[i].at
    ensures PowerSum(s, powers, end, poll, from, until) == 0 && Seconds(s, powers, end, poll, from, until) == 0
    decreases until - from
  {
    if from < until {
      BeforeTheFirst(s, powers, end, poll, from, until - 1);
      NothingStands(s, until - 1);
    }
  }

  lemma OneMore(p: int, n: int)
    ensures p * (n + 1) == p * n + p
  {}

  /** While one sample stands, its power is added once a second, if it counts. */
  lemma {:induction false} WhileItStands(s: seq<PowerSample>, powers: seq<Cell>, end: int, poll: int, i: nat, from: int, until: int)
    requires Ascending(s) && |powers| == |s| && i < |s| && from <= s[i].at <= until && (i + 1 < |s| ==> until <= s[i + 1].at)
    ensures var at, counts := s[i].at, Counts(s, powers, end, poll, i);
            && PowerSum(s, powers, end, poll, from, until) ==
               PowerSum(s, powers, end, poll, from, at) + (if counts then powers[i].value * (until - at) else 0)
            && Seconds(s, powers, end, poll, from, until) ==
               Seconds(s, powers, end, poll, from, at) + (if counts then until - at else 0)
    decreases until - s[i].at
  {
    if s[i].at < until {
      WhileItStands(s, powers, end, poll, i, from, until - 1);
      StandsUntilNext(s, i, until - 1);
      hide Counts, StandingAt;
      if powers[i].Some? { OneMore(powers[i].value, until - 1 - s[i].at); }
    }
  }

  function NextInstant(s: seq<PowerSample>, end: int, n: nat): int { if n < |s| then s[n].at else end }

  lemma {:induction false} UpToSample(s: seq<PowerSample>, powers: seq<Cell>, start: int, end: int, poll: int, ch: Channel, n: nat)
    requires Ascending(s) && |powers| == |s| && n <= |s| && (forall i | 0 <= i < |s| :: powers[i] == Power(s[i], ch))
    requires s != [] && forall i | 0 <= i < |s| :: start <= s[i].at < end
    ensures PowerSum(s, powers, end, poll, start, NextInstant(s, end, n)) == WeightedSum(s, end, poll, ch, n)
    ensures Seconds(s, powers, end, poll, start, NextInstant(s, end, n)) == AcceptedDuration(s, end, poll, ch, n)
  {
    if n == 0 {
      BeforeTheFirst(s, powers, end, poll, start, s[0].at);
    } else {
      UpToSample(s, powers, start, end, poll, ch, n - 1);
      assert n < |s| ==> s[n - 1].at < s[n].at;
      assert Interval(s, end, n - 1) == NextInstant(s, end, n) - s[n - 1].at;
      CountsIsAccepted(s, powers, end, poll, ch, n - 1);
      hide PowerSum, Seconds, Power, Counts;
      WhileItStands(s, powers, end, poll, n - 1, start, NextInstant(s, end, n));
    }
  }

  /** The weighted mean of a day's samples is the average power over the day's seconds that have one, rounded. */
  lemma MeanIsOverSeconds(s: seq<PowerSample>, powers: seq<Cell>, start: int, end: int, poll: int, ch: Channel)
    requires Ascending(s) && |powers| == |s| && (forall i | 0 <= i < |s| :: powers[i] == Power(s[i], ch))
    requires forall i | 0 <= i < |s| :: start <= s[i].at < end
    ensures var n := Seconds(s, powers, end, poll, start, end);
            Mean(s, end, poll, ch) == if n == 0 then None else Some(Round(PowerSum(s, powers, end, poll, start, end), n))
  {
    if s == [] {
      BeforeTheFirst(s, powers, end, poll, start, end);
    } else {
      UpToSample(s, powers, start, end, poll, ch, |s|);
    }
  }

  /** Both means of a calculated row are such averages of their own powers. */
  lemma CalculatedMeans(start: int, end: int, poll: int, now: int, s: seq<PowerSample>)
    requires Ascending(s) && (forall i | 0 <= i < |s| :: start <= s[i].at < end)
    requires Calculate(start, end, poll, now, s).Success?
    ensures var r := Calculate(start, end, poll, now, s).value;
            && IsAverage(r.meanAc, s, AcPowers(s), start, end, poll) && IsAverage(r.meanDc, s, DcPowers(s), start, end, poll)
  {
    MeansCount(start, end, poll, now, s);
    MeanIsOverSeconds(s, AcPowers(s), start, end, poll, Ac);
    MeanIsOverSeconds(s, DcPowers(s), start, end, poll, Dc);
    Averages(s, AcPowers(s), start, end, poll, Ac);
    Averages(s, DcPowers(s), start, end, poll, Dc);
    hide *;
  }

  /** The integer nearest to the average, away from zero at a half. */
  predicate IsAverage(mean: Cell, s: seq<PowerSample>, powers: seq<Cell>, start: int, end: int, poll: int)
    requires |powers| == |s|
  {
    var sum, n := PowerSum(s, powers, end, poll, start, end), Seconds(s, powers, end, poll, start, end);
    && (mean.None? <==> n == 0)
    && (mean.Some? ==> var rest := 2 * (sum - mean.value * n); if sum >= 0 then 0 <= n + rest < 2 * n else 0 < n + rest <= 2 * n)
  }

  lemma Averages(s: seq<PowerSample>, powers: seq<Cell>, start: int, end: int, poll: int, ch: Channel)
    requires |powers| == |s|
    requires var n := Seconds(s, powers, end, poll, start, end);
             Mean(s, end, poll, ch) == if n == 0 then None else Some(Round(PowerSum(s, powers, end, poll, start, end), n))
    ensures IsAverage(Mean(s, end, poll, ch), s, powers, start, end, poll)
  {
    var n := Seconds(s, powers, end, poll, start, end);
    if n > 0 { RoundIsNearest(PowerSum(s, powers, end, poll, start, end), n); }
    hide Round, Mean, PowerSum, Seconds;
  }
}
