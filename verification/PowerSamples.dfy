/**
 Grouping the rows of the measurement/tracker join back into one power sample per measurement.
 */
module PowerSamples {
  import opened Wrappers
  import opened DailyStatistics

  /** A measurement with its AC phases and the DC power of each of its trackers. */
  datatype Measurement = Measurement(id: int, at: int, phase1: Cell, phase2: Cell, phase3: Cell, trackers: seq<Cell>)

  /** One row of the left join; a measurement without trackers has one row with no DC power. */
  datatype JoinRow = JoinRow(id: int, at: int, phase1: Cell, phase2: Cell, phase3: Cell, dc: Cell)

  function Add(x: Cell, y: Cell): Cell {
    if x.None? then y else if y.None? then x else Some(x.value + y.value)
  }

  /** The sum of the phases that have a value; none when no phase has one. */
  function AcPower(r: JoinRow): Cell { Add(Add(r.phase1, r.phase2), r.phase3) }

  /** The sum of the tracker powers that have a value; none when no tracker has one. */
  function SumOf(cells: seq<Cell>): Cell {
    if cells == [] then None else Add(SumOf(cells[..|cells| - 1]), cells[|cells| - 1])
  }

  function SampleOf(m: Measurement): PowerSample {
    PowerSample(m.at, Add(Add(m.phase1, m.phase2), m.phase3), SumOf(m.trackers))
  }

  /** What a cell adds to a sum. */
  function Worth(c: Cell): int { if c.Some? then c.value else 0 }

  function Total(cells: seq<Cell>): int {
    if cells == [] then 0 else Total(cells[..|cells| - 1]) + Worth(cells[|cells| - 1])
  }

  /** The sum of the cells that have a value; none when no cell has one. */
  ghost predicate IsSum(c: Cell, cells: seq<Cell>) {
    && (c.None? <==> forall i | 0 <= i < |cells| :: cells[i].None?)
    && (c.Some? ==> c.value == Total(cells))
  }

  lemma {:induction false} SumIsTotal(cells: seq<Cell>)
    ensures IsSum(SumOf(cells), cells)
    ensures SumOf(cells).None? ==> Total(cells) == 0
  {
    if cells != [] {
      var front := cells[..|cells| - 1];
      SumIsTotal(front);
      assert (forall i | 0 <= i < |cells| :: cells[i].None?) <==>
             (forall i | 0 <= i < |front| :: front[i].None?) && cells[|cells| - 1].None?;
    }
  }

  /** A sample holds the sum of its measurement's phases and that of its trackers. */
  lemma SampleSums(m: Measurement)
    ensures var s := SampleOf(m);
            && s.at == m.at && IsSum(s.dc, m.trackers)
            && (s.ac.None? <==> m.phase1.None? && m.phase2.None? && m.phase3.None?)
            && (s.ac.Some? ==> s.ac.value == Worth(m.phase1) + Worth(m.phase2) + Worth(m.phase3))
  {
    SumIsTotal(m.trackers);
  }

  function RowOf(m: Measurement, dc: Cell): JoinRow { JoinRow(m.id, m.at, m.phase1, m.phase2, m.phase3, dc) }

  function TrackerRows(m: Measurement, n: nat): seq<JoinRow>
    requires n <= |m.trackers|
  {
    if n == 0 then [] else TrackerRows(m, n - 1) + [RowOf(m, m.trackers[n - 1])]
  }

  function JoinOne(m: Measurement): seq<JoinRow> {
    if m.trackers == [] then [RowOf(m, None)] else TrackerRows(m, |m.trackers|)
  }

  function Join(ms: seq<Measurement>): seq<JoinRow> {
    if ms == [] then [] else Join(ms[..|ms| - 1]) + JoinOne(ms[|ms| - 1])
  }

  /** One row folded into the samples by measurement id. */
  function AddRow(g: map<int, PowerSample>, r: JoinRow): map<int, PowerSample> {
    var sample := if r.id in g then g[r.id] else PowerSample(r.at, AcPower(r), None);
    g[r.id := if r.dc.Some? then sample.(dc := Add(sample.dc, r.dc)) else sample]
  }

  function AddRows(g: map<int, PowerSample>, rows: seq<JoinRow>): map<int, PowerSample> {
    if rows == [] then g else AddRow(AddRows(g, rows[..|rows| - 1]), rows[|rows| - 1])
  }

  lemma {:induction false} AddRowsSplit(g: map<int, PowerSample>, a: seq<JoinRow>, b: seq<JoinRow>)
    ensures AddRows(g, a + b) == AddRows(AddRows(g, a), b)
  {
    if b == [] {
      assert a + b == a;
    } else {
      assert (a + b)[..|a + b| - 1] == a + b[..|b| - 1];
      AddRowsSplit(g, a, b[..|b| - 1]);
    }
  }

  function SampleUpTo(m: Measurement, n: nat): PowerSample
    requires n <= |m.trackers|
  {
    PowerSample(m.at, Add(Add(m.phase1, m.phase2), m.phase3), SumOf(m.trackers[..n]))
  }

  lemma SumStep(m: Measurement, n: nat)
    requires 0 < n <= |m.trackers|
    ensures SumOf(m.trackers[..n]) == Add(SumOf(m.trackers[..n - 1]), m.trackers[n - 1])
  {
    assert m.trackers[..n][..n - 1] == m.trackers[..n - 1];
  }

  lemma AddTracker(g: map<int, PowerSample>, m: Measurement, n: nat)
    requires 0 < n <= |m.trackers|
    requires if n == 1 then m.id !in g else m.id in g && g[m.id] == SampleUpTo(m, n - 1)
    ensures AddRow(g, RowOf(m, m.trackers[n - 1])) == g[m.id := SampleUpTo(m, n)]
  {
    SumStep(m, n);
    assert n == 1 ==> m.trackers[..0] == [];
  }

  lemma {:induction false} TrackersFold(g: map<int, PowerSample>, m: Measurement, n: nat)
    requires m.id !in g && 0 < n <= |m.trackers|
    ensures AddRows(g, TrackerRows(m, n)) == g[m.id := SampleUpTo(m, n)]
  {
    hide SampleUpTo, AddRow;
    var rows := TrackerRows(m, n);
    assert rows[..|rows| - 1] == TrackerRows(m, n - 1);
    if n == 1 {
      AddTracker(g, m, 1);
    } else {
      TrackersFold(g, m, n - 1);
      var before := g[m.id := SampleUpTo(m, n - 1)];
      AddTracker(before, m, n);
      assert before[m.id := SampleUpTo(m, n)] == g[m.id := SampleUpTo(m, n)];
    }
  }

  function ById(ms: seq<Measurement>): map<int, PowerSample> {
    if ms == [] then map[] else ById(ms[..|ms| - 1])[ms[|ms| - 1].id := SampleOf(ms[|ms| - 1])]
  }

  ghost predicate DistinctIds(ms: seq<Measurement>) {
    forall i, j | 0 <= i < j < |ms| :: ms[i].id != ms[j].id
  }

  lemma {:induction false} ByIdKeys(ms: seq<Measurement>, id: int)
    ensures id in ById(ms) <==> exists i :: 0 <= i < |ms| && ms[i].id == id
    ensures DistinctIds(ms) ==> forall i | 0 <= i < |ms| && ms[i].id == id :: ById(ms)[id] == SampleOf(ms[i])
  {
    if ms != [] {
      var front, last := ms[..|ms| - 1], |ms| - 1;
      ByIdKeys(front, id);
      if id in ById(front) {
        var i :| 0 <= i < |front| && front[i].id == id;
        assert ms[i].id == id;
      }
      assert ms[last].id == id ==> exists i :: 0 <= i < |ms| && ms[i].id == id;
      forall i | 0 <= i < |ms| && ms[i].id == id
        ensures id in ById(ms) && (DistinctIds(ms) ==> ById(ms)[id] == SampleOf(ms[i]))
      {
        if i < last { assert front[i] == ms[i]; }
      }
    }
  }

  /** Grouping undoes the join. */
  lemma {:induction false} GroupingUndoesJoin(ms: seq<Measurement>)
    requires DistinctIds(ms)
    ensures AddRows(map[], Join(ms)) == ById(ms)
  {
    if ms != [] {
      var front, m := ms[..|ms| - 1], ms[|ms| - 1];
      GroupingUndoesJoin(front);
      AddRowsSplit(map[], Join(front), JoinOne(m));
      ByIdKeys(front, m.id);
      if m.trackers == [] {
        assert JoinOne(m)[..0] == [];
      } else {
        TrackersFold(ById(front), m, |m.trackers|);
        assert m.trackers[..|m.trackers|] == m.trackers;
      }
    }
  }

  predicate IsEarliest(g: map<int, PowerSample>, ids: set<int>, id: int)
    requires ids <= g.Keys
  {
    id in ids && forall j | j in ids :: g[id].at <= g[j].at
  }

  lemma {:induction false} EarliestExists(g: map<int, PowerSample>, ids: set<int>)
    requires ids <= g.Keys
    ensures ids == {} || exists id :: IsEarliest(g, ids, id)
  {
    if ids != {} {
      MemberExists(ids);
      var id :| id in ids;
      var rest := ids - {id};
      EarliestExists(g, rest);
      if rest == {} {
        assert ids == {id} && IsEarliest(g, ids, id);
      } else {
        var m :| IsEarliest(g, rest, m);
        assert IsEarliest(g, ids, id) || IsEarliest(g, ids, m);
      }
    }
  }

  /**
   Groups the joined rows in a map by measurement id and sorts the samples by time: one sample per
   measurement, in time order, with the phases and the trackers that have a value summed.
   */
  method GroupPowerSamples(ghost ms: seq<Measurement>, rows: seq<JoinRow>) returns (samples: seq<PowerSample>)
    requires DistinctIds(ms) && rows == Join(ms)
    requires forall i, j | 0 <= i < j < |ms| :: ms[i].at < ms[j].at
    ensures |samples| == |ms| && forall i | 0 <= i < |ms| :: samples[i] == SampleOf(ms[i])
    ensures forall i | 0 <= i < |ms| :: samples[i].at == ms[i].at && IsSum(samples[i].dc, ms[i].trackers)
  {
    forall i | 0 <= i < |ms| { SampleSums(ms[i]); }
    hide IsSum;
    var groups: map<int, PowerSample> := map[];
    for i := 0 to |rows|
      invariant groups == AddRows(map[], rows[..i])
    {
      assert rows[..i + 1][..i] == rows[..i];
      groups := AddRow(groups, rows[i]);
    }
    assert rows[..|rows|] == rows;
    GroupingUndoesJoin(ms);
    samples := SortByTime(ms, groups);
  }

  method SortByTime(ghost ms: seq<Measurement>, groups: map<int, PowerSample>) returns (samples: seq<PowerSample>)
    requires DistinctIds(ms) && groups == ById(ms)
    requires forall i, j | 0 <= i < j < |ms| :: ms[i].at < ms[j].at
    ensures |samples| == |ms| && forall i | 0 <= i < |ms| :: samples[i] == SampleOf(ms[i])
  {
    samples := [];
    var ids := groups.Keys;
    forall id
      ensures id in ids <==> exists i :: 0 <= i < |ms| && ms[i].id == id
    {
      ByIdKeys(ms, id);
    }
    while ids != {}
      invariant ids <= groups.Keys && |samples| <= |ms|
      invariant forall i | 0 <= i < |samples| :: samples[i] == SampleOf(ms[i])
      invariant forall id :: id in ids <==> exists i :: |samples| <= i < |ms| && ms[i].id == id
      decreases ids
    {
      EarliestExists(groups, ids);
      var id :| IsEarliest(groups, ids, id);
      EarliestIsNext(ms, groups, ids, |samples|, id);
      samples := samples + [groups[id]];
      ids := ids - {id};
    }
    SomeLeft(ms, ids, |samples|);
  }

  /** The earliest remaining group is the next measurement in time order. */
  lemma EarliestIsNext(ms: seq<Measurement>, groups: map<int, PowerSample>, ids: set<int>, n: nat, id: int)
    requires DistinctIds(ms) && groups == ById(ms) && ids <= groups.Keys && n <= |ms|
    requires forall i, j | 0 <= i < j < |ms| :: ms[i].at < ms[j].at
    requires forall x :: x in ids <==> exists i :: n <= i < |ms| && ms[i].id == x
    requires IsEarliest(groups, ids, id)
    ensures n < |ms| && ms[n].id == id && groups[id] == SampleOf(ms[n])
    ensures forall x :: x in ids - {id} <==> exists i :: n + 1 <= i < |ms| && ms[i].id == x
  {
    var i :| n <= i < |ms| && ms[i].id == id;
    ByIdKeys(ms, id);
    ByIdKeys(ms, ms[n].id);
    assert ms[n].id in ids;
    assert groups[ms[n].id].at == ms[n].at && groups[id].at == ms[i].at;
    assert i == n;
    forall x
      ensures x in ids - {id} <==> exists i :: n + 1 <= i < |ms| && ms[i].id == x
    {
      if x in ids && x != id {
        var j :| n <= j < |ms| && ms[j].id == x;
        assert j != n;
      }
    }
  }

  lemma SomeLeft(ms: seq<Measurement>, ids: set<int>, n: nat)
    requires forall x :: x in ids <==> exists i :: n <= i < |ms| && ms[i].id == x
    ensures n < |ms| ==> ids != {}
  {
    if n < |ms| { assert ms[n].id in ids; }
  }
}
