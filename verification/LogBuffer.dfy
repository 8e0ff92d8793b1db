/** The captured application log: a memory ring bounded by age and by record count, read in pages. */
module LogBuffer {
  import opened Paging
  import opened Wrappers

  const U64_MAX: int := 0xFFFF_FFFF_FFFF_FFFF
  const I64_MIN: int := -0x8000_0000_0000_0000
  const I64_MAX: int := 0x7FFF_FFFF_FFFF_FFFF

  datatype LogLevel = Error | Warn | Info | Debug | Trace

  /** 1 = error to 5 = trace, so that "at least this severe" is a comparison. */
  function Rank(l: LogLevel): int {
    match l
    case Error => 1
    case Warn => 2
    case Info => 3
    case Debug => 4
    case Trace => 5
  }

  datatype Event = Event(occurredAt: int, level: LogLevel, target: string, message: string, fields: Option<string>)

  datatype LogRecord = LogRecord(sequence: int, event: Event)

  function Sequence(r: LogRecord): int { r.sequence }

  function Saturate(n: nat): int { if n > U64_MAX then U64_MAX else n }

  /** The state of the ring; `dropped` counts the records that the cap evicted. */
  datatype State = State(records: seq<LogRecord>, nextSequence: int, dropped: int)

  datatype Config = Config(retentionMs: nat, maxRecords: nat)

  function Cutoff(occurredAt: int, retentionMs: nat): int {
    var window := if retentionMs > I64_MAX then I64_MAX else retentionMs;
    if occurredAt - window < I64_MIN then I64_MIN else occurredAt - window
  }

  /** Drops records from the front while they are too old. */
  function DropOld(records: seq<LogRecord>, cutoff: int): seq<LogRecord> {
    if records != [] && records[0].event.occurredAt < cutoff then DropOld(records[1..], cutoff) else records
  }

  function Last(records: seq<LogRecord>, n: nat): seq<LogRecord> {
    if |records| <= n then records else records[|records| - n..]
  }

  /** The ring after one more event. */
  function Push(s: State, c: Config, e: Event): State
    requires s.dropped >= 0
  {
    var all := s.records + [LogRecord(s.nextSequence, e)];
    var young := DropOld(all, Cutoff(e.occurredAt, c.retentionMs));
    var excess := if |young| > c.maxRecords then |young| - c.maxRecords else 0;
    State(Last(young, c.maxRecords), if s.nextSequence >= U64_MAX then U64_MAX else s.nextSequence + 1,
          Saturate(s.dropped + excess))
  }

  const EMPTY: State := State([], 1, 0)

  function Run(c: Config, events: seq<Event>): (s: State)
    ensures s.dropped >= 0
  {
    if events == [] then EMPTY else Push(Run(c, events[..|events| - 1]), c, events[|events| - 1])
  }

  /** Every event with the cursor it was issued; the cursor stops at its largest value. */
  function Issued(events: seq<Event>): seq<LogRecord> {
    seq(|events|, i requires 0 <= i < |events| => LogRecord(Saturate(i + 1), events[i]))
  }

  // ---------------------------------------------------------------- the ring after any run

  lemma {:induction false} DropOldIsSuffix(records: seq<LogRecord>, cutoff: int) returns (n: nat)
    ensures n <= |records| && DropOld(records, cutoff) == records[n..]
    ensures forall i | 0 <= i < n :: records[i].event.occurredAt < cutoff
    ensures n < |records| ==> records[n].event.occurredAt >= cutoff
  {
    if records != [] && records[0].event.occurredAt < cutoff {
      var m := DropOldIsSuffix(records[1..], cutoff);
      n := m + 1;
      assert records[1..][m..] == records[n..];
      assert n < |records| ==> records[1..][m] == records[n];
    } else {
      n := 0;
    }
  }

  lemma PushKeepsSuffix(s: State, c: Config, e: Event) returns (n: nat)
    requires c.maxRecords > 0 && e.occurredAt >= I64_MIN && s.dropped >= 0
    ensures var all := s.records + [LogRecord(s.nextSequence, e)];
            n < |all| && Push(s, c, e).records == all[n..] && |all| - n <= c.maxRecords
    ensures Push(s, c, e).dropped <= s.dropped + n
  {
    var all := s.records + [LogRecord(s.nextSequence, e)];
    var m := DropOldIsSuffix(all, Cutoff(e.occurredAt, c.retentionMs));
    hide DropOld;
    assert all[|all| - 1].event == e;
    assert m < |all|;
    var young := all[m..];
    n := if |young| > c.maxRecords then |all| - c.maxRecords else m;
    assert Last(young, c.maxRecords) == all[n..];
  }

  /** The cap, and not the window, counts as dropping: the records evicted from `m` on, the first one still in the window. */
  lemma DroppedExactly(s: State, c: Config, e: Event, m: nat)
    requires s.dropped >= 0 && m <= |s.records|
    requires var all := s.records + [LogRecord(s.nextSequence, e)];
             && (forall j | 0 <= j < m :: all[j].event.occurredAt < Cutoff(e.occurredAt, c.retentionMs))
             && all[m].event.occurredAt >= Cutoff(e.occurredAt, c.retentionMs)
    ensures var t, young := Push(s, c, e), |s.records| + 1 - m;
            t.dropped == Saturate(s.dropped + if young > c.maxRecords then young - c.maxRecords else 0)
  {
    var all, cutoff := s.records + [LogRecord(s.nextSequence, e)], Cutoff(e.occurredAt, c.retentionMs);
    var n := DropOldIsSuffix(all, cutoff);
    hide DropOld, Cutoff;
    assert n < |all| ==> all[n].event.occurredAt >= cutoff;
    assert n == m;
  }

  /** A time stamp of 64 bits. */
  predicate IsTime(t: int) { I64_MIN <= t <= I64_MAX }

  /**
   A push keeps a record exactly when the cap has room for it and those after it, and it or one before
   it lies in the window that ends with the new record.
   */
  lemma KeptExactlyWhen(s: State, c: Config, e: Event, i: nat)
    requires c.maxRecords > 0 && s.dropped >= 0 && i <= |s.records| && IsTime(e.occurredAt)
    requires forall j | 0 <= j < |s.records| :: IsTime(s.records[j].event.occurredAt)
    ensures var all, kept := s.records + [LogRecord(s.nextSequence, e)], Push(s, c, e).records;
            var window := if c.retentionMs < I64_MAX then c.retentionMs else I64_MAX;
            && |kept| <= |all| && kept == all[|all| - |kept|..]
            && (i >= |all| - |kept| <==>
                  |all| - i <= c.maxRecords && exists j | 0 <= j <= i :: all[j].event.occurredAt >= e.occurredAt - window)
  {
    var all, cutoff := s.records + [LogRecord(s.nextSequence, e)], Cutoff(e.occurredAt, c.retentionMs);
    var m := DropOldIsSuffix(all, cutoff);
    var n := PushKeepsSuffix(s, c, e);
    var young := all[m..];
    assert Last(young, c.maxRecords) == Push(s, c, e).records;
    assert forall j | 0 <= j < |all| :: all[j].event.occurredAt >= I64_MIN;
    assert forall j | 0 <= j < |all| ::
        all[j].event.occurredAt >= cutoff <==>
        all[j].event.occurredAt >= e.occurredAt - if c.retentionMs < I64_MAX then c.retentionMs else I64_MAX;
    hide DropOld, Push, Cutoff;
    if i >= m { assert all[m].event.occurredAt >= cutoff; }
  }

  predicate TimesFit(events: seq<Event>) { forall i | 0 <= i < |events| :: events[i].occurredAt >= I64_MIN }

  lemma IssuedStep(events: seq<Event>)
    requires events != []
    ensures Issued(events) == Issued(events[..|events| - 1]) + [LogRecord(Saturate(|events|), events[|events| - 1])]
  {}

  lemma SuffixOfSuffix(all: seq<LogRecord>, r: LogRecord, m: nat, k: nat)
    requires m <= |all| && k <= |all| - m + 1
    ensures (all[m..] + [r])[k..] == (all + [r])[m + k..]
  {}

  /** After any run the ring holds the newest records issued, the last one included, within its cap. */
  lemma {:induction false} RingHoldsNewest(c: Config, events: seq<Event>)
    requires c.maxRecords > 0 && TimesFit(events)
    ensures var s := Run(c, events);
            var n := |events| - |s.records|;
            && n >= 0 && s.records == Issued(events)[n..] && |s.records| <= c.maxRecords
            && (events != [] ==> s.records != [])
            && s.nextSequence == Saturate(|events| + 1) && s.dropped <= n
    decreases |events|
  {
    if events != [] {
      RunStep(c, events);
      hide Run, Push, Issued;
      var front, e := events[..|events| - 1], events[|events| - 1];
      var s := Run(c, front);
      RingHoldsNewest(c, front);
      IssuedStep(events);
      PushAdvances(s, c, e);
      var k := PushKeepsSuffix(s, c, e);
      SuffixOfSuffix(Issued(front), LogRecord(s.nextSequence, e), |front| - |s.records|, k);
    }
  }

  lemma RunStep(c: Config, events: seq<Event>)
    requires events != []
    ensures Run(c, events) == Push(Run(c, events[..|events| - 1]), c, events[|events| - 1])
  {}

  lemma PushAdvances(s: State, c: Config, e: Event)
    requires s.dropped >= 0
    ensures Push(s, c, e).nextSequence == if s.nextSequence >= U64_MAX then U64_MAX else s.nextSequence + 1
  {}

  /** Until the cursor runs out the retained cursors are contiguous and end with the newest issued. */
  lemma RingIsContiguous(c: Config, events: seq<Event>)
    requires c.maxRecords > 0 && TimesFit(events) && |events| < U64_MAX
    ensures var s := Run(c, events);
            forall i | 0 <= i < |s.records| :: s.records[i].sequence == s.nextSequence - |s.records| + i
  {
    RingHoldsNewest(c, events);
    hide Run;
  }

  function SnapshotOf(s: State): Snapshot<LogRecord> { Snapshot(s.records, s.nextSequence) }

  /** The moments of a reading session: the ring after ever longer prefixes of one run. */
  predicate IsSession(events: seq<Event>, cuts: seq<nat>) {
    (forall k | 0 <= k < |cuts| :: cuts[k] <= |events|) && forall j, k | 0 <= j < k < |cuts| :: cuts[j] <= cuts[k]
  }

  function Session(c: Config, events: seq<Event>, cuts: seq<nat>): (h: seq<Snapshot<LogRecord>>)
    requires IsSession(events, cuts)
    ensures |h| == |cuts|
  {
    seq(|cuts|, k requires 0 <= k < |cuts| => SnapshotOf(Run(c, events[..cuts[k]])))
  }

  lemma SessionIsHistory(c: Config, events: seq<Event>, cuts: seq<nat>)
    requires c.maxRecords > 0 && TimesFit(events) && |events| < U64_MAX && IsSession(events, cuts)
    ensures IsHistory(Session(c, events, cuts), Sequence)
  {
    var h := Session(c, events, cuts);
    forall k | 0 <= k < |h|
      ensures Ascending(h[k].rows, Sequence) && h[k].next == cuts[k] + 1
      ensures forall r | r in h[k].rows :: r.sequence < h[k].next
    {
      MomentIsAscending(c, events[..cuts[k]]);
    }
    forall j, k | 0 <= j < k < |h|
      ensures Evolves(h[j], h[k], Sequence)
    {
      MomentsEvolve(c, events, cuts[j], cuts[k]);
    }
    hide Evolves, Ascending;
  }

  lemma MomentIsAscending(c: Config, events: seq<Event>)
    requires c.maxRecords > 0 && TimesFit(events) && |events| < U64_MAX
    ensures var s := SnapshotOf(Run(c, events));
            Ascending(s.rows, Sequence) && s.next == |events| + 1 && forall r | r in s.rows :: r.sequence < s.next
  {
    RingHoldsNewest(c, events);
    var all := Issued(events);
    assert forall k | 0 <= k < |all| :: all[k].sequence == k + 1;
    hide Run, Issued, TimesFit;
    SuffixAscends(all, |events| - |Run(c, events).records|);
  }

  lemma SuffixAscends(all: seq<LogRecord>, n: nat)
    requires n <= |all| && forall k | 0 <= k < |all| :: all[k].sequence == k + 1
    ensures Ascending(all[n..], Sequence) && forall r | r in all[n..] :: r.sequence <= |all|
  {}

  lemma IssuedPrefix(events: seq<Event>, j: nat)
    requires j <= |events|
    ensures Issued(events[..j]) == Issued(events)[..j]
  {}

  lemma SlicesEvolve(all: seq<LogRecord>, a: Snapshot<LogRecord>, b: Snapshot<LogRecord>, m: nat, i: nat, n: nat, j: nat)
    requires m <= i <= j <= |all| && m <= n <= j && a.rows == all[m..i] && b.rows == all[n..j]
    requires a.next == i + 1 && b.next == j + 1 && forall k | 0 <= k < |all| :: all[k].sequence == k + 1
    ensures Evolves(a, b, Sequence)
  {
    forall r | r in b.rows
      ensures r in a.rows || Sequence(r) >= a.next
    {
      var k :| n <= k < j && all[k] == r;
      if k < i { assert a.rows[k - m] == r; }
    }
  }

  lemma MomentsEvolve(c: Config, events: seq<Event>, i: nat, j: nat)
    requires c.maxRecords > 0 && TimesFit(events) && |events| < U64_MAX && i <= j <= |events|
    ensures Evolves(SnapshotOf(Run(c, events[..i])), SnapshotOf(Run(c, events[..j])), Sequence)
  {
    RingHoldsNewest(c, events[..i]);
    RingHoldsNewest(c, events[..j]);
    RingGrowsByOne(c, events, i, j);
    IssuedPrefix(events, i);
    IssuedPrefix(events, j);
    var all := Issued(events);
    assert forall k | 0 <= k < |all| :: all[k].sequence == k + 1;
    hide Run, Issued, Evolves, TimesFit;
    var a, b := Run(c, events[..i]), Run(c, events[..j]);
    var m, n := i - |a.records|, j - |b.records|;
    assert all[..i][m..] == all[m..i] && all[..j][n..] == all[n..j];
    SlicesEvolve(all, SnapshotOf(a), SnapshotOf(b), m, i, n, j);
  }

  /** A push adds one record at most, so evictions only ever move the front of the ring forward. */
  lemma {:induction false} RingGrowsByOne(c: Config, events: seq<Event>, i: nat, j: nat)
    requires c.maxRecords > 0 && TimesFit(events) && i <= j <= |events|
    ensures |Run(c, events[..j]).records| <= |Run(c, events[..i]).records| + (j - i)
    decreases j - i
  {
    if i < j {
      RingGrowsByOne(c, events, i, j - 1);
      assert events[..j][..j - 1] == events[..j - 1];
      RunStep(c, events[..j]);
      hide Run;
      var k := PushKeepsSuffix(Run(c, events[..j - 1]), c, events[j - 1]);
    }
  }

  // ---------------------------------------------------------------- reading

  datatype LogQuery = LogQuery(since: Option<int>, before: Option<int>, limit: nat, minLevel: Option<LogLevel>,
                               targetPrefix: Option<string>)

  datatype Stats = Stats(retained: nat, oldestOccurredAt: Option<int>, newestSequence: int, dropped: int)

  datatype LogPage = LogPage(records: seq<LogRecord>, stats: Stats, reset: bool)

  predicate Matches(q: LogQuery, since: Option<int>, r: LogRecord) {
    && (since.Some? ==> r.sequence > since.value)
    && (q.minLevel.Some? ==> Rank(r.event.level) <= Rank(q.minLevel.value))
    && (q.targetPrefix.Some? ==> q.targetPrefix.value <= r.event.target)
  }

  /** A filter asks for records after its cursor, at least as severe as its level, of targets with its prefix. */
  lemma FilterMeans(q: LogQuery, since: Option<int>, r: LogRecord)
    ensures Matches(q, since, r) <==>
            && (since.None? || since.value < r.sequence)
            && (q.minLevel == Some(Error) ==> r.event.level.Error?)
            && (q.minLevel == Some(Warn) ==> r.event.level in {Error, Warn})
            && (q.minLevel == Some(Info) ==> r.event.level in {Error, Warn, Info})
            && (q.minLevel == Some(Debug) ==> !r.event.level.Trace?)
            && (q.targetPrefix.None? || exists rest :: r.event.target == q.targetPrefix.value + rest)
  {
    if q.targetPrefix.Some? {
      var prefix, target := q.targetPrefix.value, r.event.target;
      if prefix <= target { assert target == prefix + target[|prefix|..]; }
    }
  }

  function NewestSequence(s: State): int { if s.nextSequence == 0 then 0 else s.nextSequence - 1 }

  function StatsOf(s: State): Stats {
    Stats(|s.records|, if s.records == [] then None else Some(s.records[0].event.occurredAt), NewestSequence(s), s.dropped)
  }

  /** A cursor ahead of the ring starts over from the newest record. */
  function Reset(s: State, q: LogQuery): bool { q.since.Some? && q.since.value > NewestSequence(s) }

  /** The `since` cursor that a read honours. */
  function Since(s: State, q: LogQuery): Option<int> { if Reset(s, q) then None else q.since }

  function PageSize(q: LogQuery): nat { if q.limit > 1 then q.limit else 1 }

  function ReadPage(s: State, q: LogQuery): LogPage {
    var since := Since(s, q);
    LogPage(Page(s.records, Sequence, r => Matches(q, since, r), q.before, PageSize(q)), StatsOf(s), Reset(s, q))
  }

  /** The newest matching records below the cursor, newest first; only a full page leaves any out, and those are older. */
  lemma PageIsNewest(s: State, q: LogQuery, keep: LogRecord -> bool)
    requires Ascending(s.records, Sequence) && forall r :: keep(r) == Matches(q, Since(s, q), r)
    ensures IsPage(ReadPage(s, q).records, s.records, Sequence, keep, q.before, if q.limit == 0 then 1 else q.limit)
  {
    SameMatches(s, q, keep);
    PageFacts(s.records, Sequence, keep, q.before, PageSize(q));
  }

  /**
   What a page says of the ring after any run: how many of the newest events it still holds, when the
   oldest of them occurred, and how many there were. A cursor that is ahead of them starts over.
   */
  lemma StatsTell(c: Config, events: seq<Event>, q: LogQuery)
    requires c.maxRecords > 0 && TimesFit(events) && |events| < U64_MAX
    ensures var s := Run(c, events);
            var page, n := ReadPage(s, q), |s.records|;
            && n <= |events| && (events != [] ==> n > 0)
            && page.stats.retained == n && page.stats.newestSequence == |events| && page.stats.dropped <= |events| - n
            && page.stats.oldestOccurredAt == (if events == [] then None else Some(events[|events| - n].occurredAt))
            && (page.reset <==> q.since.Some? && q.since.value > |events|)
            && Since(s, q) == (if page.reset then None else q.since)
  {
    RingHoldsNewest(c, events);
    hide Run, Matches;
  }

  /** What a client reads that asks for page after page while the ring goes on changing. */
  function ReadSession(c: Config, events: seq<Event>, cuts: seq<nat>, q: LogQuery): seq<LogRecord>
    requires IsSession(events, cuts)
  {
    if cuts == [] then []
    else
      var page := ReadPage(Run(c, events[..cuts[0]]), q).records;
      page + ReadSession(c, events, cuts[1..], q.(before := Cursor(page, Sequence, q.before)))
  }

  /** The query with which the client goes on after these pages. */
  function QueryAfter(c: Config, events: seq<Event>, cuts: seq<nat>, q: LogQuery): LogQuery
    requires IsSession(events, cuts)
  {
    if cuts == [] then q
    else
      var page := ReadPage(Run(c, events[..cuts[0]]), q).records;
      QueryAfter(c, events, cuts[1..], q.(before := Cursor(page, Sequence, q.before)))
  }

  predicate GetsShortPage(c: Config, events: seq<Event>, cuts: seq<nat>, q: LogQuery)
    requires IsSession(events, cuts)
  {
    cuts != [] &&
    var page := ReadPage(Run(c, events[..cuts[0]]), q).records;
    |page| < PageSize(q) || GetsShortPage(c, events, cuts[1..], q.(before := Cursor(page, Sequence, q.before)))
  }

  /** Pages that honour the same `since` are the pages of one run over the ring's history. */
  lemma {:induction false} SessionPages(c: Config, events: seq<Event>, cuts: seq<nat>, q: LogQuery, since: Option<int>,
                                        keep: LogRecord -> bool)
    requires IsSession(events, cuts) && forall k | 0 <= k < |cuts| :: Since(Run(c, events[..cuts[k]]), q) == since
    requires forall r :: keep(r) == Matches(q, since, r)
    ensures var h := Session(c, events, cuts);
            && ReadSession(c, events, cuts, q) == ReadAll(h, Sequence, keep, q.before, PageSize(q))
            && QueryAfter(c, events, cuts, q) == q.(before := FinalCursor(h, Sequence, keep, q.before, PageSize(q)))
            && (GetsShortPage(c, events, cuts, q) <==> MeetsShortPage(h, Sequence, keep, q.before, PageSize(q)))
    decreases |cuts|
  {
    var h := Session(c, events, cuts);
    if cuts == [] {
      assert q == q.(before := q.before);
    } else {
      var s := Run(c, events[..cuts[0]]);
      var page := ReadPage(s, q).records;
      assert h[0].rows == s.records;
      assert page == Page(h[0].rows, Sequence, keep, q.before, PageSize(q)) by { SameMatches(s, q, keep); }
      var next := q.(before := Cursor(page, Sequence, q.before));
      var tail := cuts[1..];
      assert h[1..] == Session(c, events, tail);
      assert forall k | 0 <= k < |tail| :: tail[k] == cuts[k + 1];
      assert forall r :: Matches(q, since, r) == Matches(next, since, r);
      hide ReadPage, Run, Page, Matches;
      SessionPages(c, events, tail, next, since, keep);
    }
  }

  lemma SameMatches(s: State, q: LogQuery, keep: LogRecord -> bool)
    requires forall r :: keep(r) == Matches(q, Since(s, q), r)
    ensures ReadPage(s, q).records == Page(s.records, Sequence, keep, q.before, PageSize(q))
  {
    var since := Since(s, q);
    SamePage(s.records, r => Matches(q, since, r), keep, q.before, PageSize(q));
  }

  lemma {:induction false} SamePage(records: seq<LogRecord>, a: LogRecord -> bool, b: LogRecord -> bool,
                                    before: Option<int>, limit: nat)
    requires forall r :: a(r) == b(r)
    ensures Page(records, Sequence, a, before, limit) == Page(records, Sequence, b, before, limit)
    decreases |records|
  {
    if records != [] && limit > 0 {
      var front := records[..|records| - 1];
      SamePage(front, a, b, before, limit - 1);
      SamePage(front, a, b, before, limit);
    }
  }

  lemma NoLaterReset(c: Config, events: seq<Event>, i: nat, j: nat, q: LogQuery)
    requires c.maxRecords > 0 && TimesFit(events) && |events| < U64_MAX && i <= j <= |events|
    requires !Reset(Run(c, events[..i]), q)
    ensures !Reset(Run(c, events[..j]), q)
  {
    RingHoldsNewest(c, events[..i]);
    RingHoldsNewest(c, events[..j]);
  }

  /** The pages of a session never repeat a record and never go back up, whatever is reset in between. */
  lemma {:induction false} SessionDescends(c: Config, events: seq<Event>, cuts: seq<nat>, q: LogQuery)
    requires c.maxRecords > 0 && TimesFit(events) && |events| < U64_MAX && IsSession(events, cuts)
    ensures Descending(ReadSession(c, events, cuts, q), Sequence)
    ensures forall r | r in ReadSession(c, events, cuts, q) :: Below(q.before, r.sequence)
    decreases |cuts|
  {
    if cuts != [] {
      var s := Run(c, events[..cuts[0]]);
      var since := Since(s, q);
      var page := ReadPage(s, q).records;
      var next := q.(before := Cursor(page, Sequence, q.before));
      MomentIsAscending(c, events[..cuts[0]]);
      PageIsNewest(s, q, r => Matches(q, since, r));
      SessionDescends(c, events, cuts[1..], next);
      hide ReadPage, Run, Matches, Below, Ascending;
      DescendingJoin(page, ReadSession(c, events, cuts[1..], next), Sequence, q.before);
    }
  }

  /** How many reads from the first on honour the `since` that the first one honours. */
  function SteadyReads(c: Config, events: seq<Event>, cuts: seq<nat>, q: LogQuery): (m: nat)
    requires IsSession(events, cuts)
    ensures m <= |cuts|
  {
    if cuts != [] && Reset(Run(c, events[..cuts[0]]), q) then ResetReads(c, events, cuts, q) else |cuts|
  }

  /** How many reads from the first on reset the cursor. */
  function ResetReads(c: Config, events: seq<Event>, cuts: seq<nat>, q: LogQuery): (m: nat)
    requires IsSession(events, cuts)
    ensures m <= |cuts|
    ensures forall k | 0 <= k < m :: Reset(Run(c, events[..cuts[k]]), q)
    ensures m < |cuts| ==> !Reset(Run(c, events[..cuts[m]]), q)
  {
    if cuts == [] || !Reset(Run(c, events[..cuts[0]]), q) then 0 else 1 + ResetReads(c, events, cuts[1..], q)
  }

  /** A record the client is after: it matches the first read, lies below the cursor and is held from first to last. */
  predicate IsKept(c: Config, events: seq<Event>, cuts: seq<nat>, q: LogQuery, r: LogRecord)
    requires IsSession(events, cuts) && cuts != []
  {
    var s := Run(c, events[..cuts[0]]);
    && r in s.records && r in Run(c, events[..cuts[|cuts| - 1]]).records
    && Matches(q, Since(s, q), r) && Below(q.before, r.sequence)
  }

  lemma SteadyCuts(events: seq<Event>, cuts: seq<nat>, m: nat)
    requires IsSession(events, cuts) && m <= |cuts|
    ensures IsSession(events, cuts[..m]) && IsSession(events, cuts[m..])
    ensures forall k | 0 <= k < m :: cuts[..m][k] == cuts[k]
    ensures forall k | 0 <= k < |cuts| - m :: cuts[m..][k] == cuts[m + k]
  {}

  lemma {:induction false} SessionSplits(c: Config, events: seq<Event>, cuts: seq<nat>, q: LogQuery, m: nat)
    requires IsSession(events, cuts) && m <= |cuts| && IsSession(events, cuts[..m]) && IsSession(events, cuts[m..])
    ensures ReadSession(c, events, cuts, q) ==
            ReadSession(c, events, cuts[..m], q)
            + ReadSession(c, events, cuts[m..], QueryAfter(c, events, cuts[..m], q))
    decreases m
  {
    hide ReadPage, Run;
    if m == 0 {
      assert cuts[m..] == cuts && |cuts[..m]| == 0;
    } else {
      var page := ReadPage(Run(c, events[..cuts[0]]), q).records;
      var next, tail := q.(before := Cursor(page, Sequence, q.before)), cuts[1..];
      SteadyCuts(events, tail, m - 1);
      SessionSplits(c, events, tail, next, m - 1);
      assert cuts[..m][1..] == tail[..m - 1] && cuts[m..] == tail[m - 1..] && cuts[..m][0] == cuts[0];
    }
  }

  /** Once a reset has ended, pages hold only records newer than any that the first read could see. */
  lemma LaterReadsAreNewer(c: Config, events: seq<Event>, first: nat, cuts: seq<nat>, q: LogQuery, q0: LogQuery, r: LogRecord)
    requires c.maxRecords > 0 && TimesFit(events) && |events| < U64_MAX && IsSession(events, cuts) && first <= |events|
    requires Reset(Run(c, events[..first]), q0) && q.since == q0.since && r in Run(c, events[..first]).records
    requires forall k | 0 <= k < |cuts| :: !Reset(Run(c, events[..cuts[k]]), q)
    ensures r !in ReadSession(c, events, cuts, q)
  {
    var keep := r => Matches(q, q.since, r);
    SessionPages(c, events, cuts, q, q.since, keep);
    SessionIsHistory(c, events, cuts);
    PagesDescend(Session(c, events, cuts), Sequence, keep, q.before, PageSize(q));
    MomentIsAscending(c, events[..first]);
    RingHoldsNewest(c, events[..first]);
    hide Run, ReadSession, Session, IsHistory;
  }

  lemma KeptAtEveryRead(c: Config, events: seq<Event>, cuts: seq<nat>, q: LogQuery, r: LogRecord, k: nat)
    requires c.maxRecords > 0 && TimesFit(events) && |events| < U64_MAX && IsSession(events, cuts)
    requires cuts != [] && k < |cuts| && IsKept(c, events, cuts, q, r)
    ensures r in Run(c, events[..cuts[k]]).records
  {
    hide Run, Issued, Matches, Below, TimesFit, Ascending;
    var last := |cuts| - 1;
    if k < last {
      TimesFitBefore(events, cuts[0]);
      TimesFitBefore(events, cuts[k]);
      MomentIsAscending(c, events[..cuts[0]]);
      MomentIsAscending(c, events[..cuts[k]]);
      MomentsEvolve(c, events, cuts[k], cuts[last]);
    }
  }

  lemma TimesFitBefore(events: seq<Event>, n: nat)
    requires TimesFit(events) && n <= |events|
    ensures TimesFit(events[..n])
  {}

  lemma SteadySince(c: Config, events: seq<Event>, cuts: seq<nat>, q: LogQuery)
    requires c.maxRecords > 0 && TimesFit(events) && |events| < U64_MAX && IsSession(events, cuts) && cuts != []
    ensures var m := SteadyReads(c, events, cuts, q);
            && m > 0
            && (forall k | 0 <= k < m :: Since(Run(c, events[..cuts[k]]), q) == Since(Run(c, events[..cuts[0]]), q))
            && (m < |cuts| ==> Reset(Run(c, events[..cuts[0]]), q))
            && forall k | m <= k < |cuts| :: !Reset(Run(c, events[..cuts[k]]), q)
  {
    var m := SteadyReads(c, events, cuts, q);
    if Reset(Run(c, events[..cuts[0]]), q) {
      forall k | m <= k < |cuts|
        ensures !Reset(Run(c, events[..cuts[k]]), q)
      {
        NoLaterReset(c, events, cuts[m], cuts[k], q);
      }
    } else {
      forall k | 0 <= k < |cuts|
        ensures !Reset(Run(c, events[..cuts[k]]), q)
      {
        NoLaterReset(c, events, cuts[0], cuts[k], q);
      }
    }
  }

  lemma SteadyPagesReadExactlyWhen(c: Config, events: seq<Event>, cuts: seq<nat>, q: LogQuery, since: Option<int>,
                                   r: LogRecord)
    requires c.maxRecords > 0 && TimesFit(events) && |events| < U64_MAX && IsSession(events, cuts) && cuts != []
    requires forall k | 0 <= k < |cuts| :: Since(Run(c, events[..cuts[k]]), q) == since
    requires IsKept(c, events, cuts, q, r)
    ensures r in ReadSession(c, events, cuts, q) <==> !Below(QueryAfter(c, events, cuts, q).before, r.sequence)
    ensures GetsShortPage(c, events, cuts, q) ==> r in ReadSession(c, events, cuts, q)
  {
    var keep := r => Matches(q, since, r);
    var h := Session(c, events, cuts);
    SessionPages(c, events, cuts, q, since, keep);
    SessionIsHistory(c, events, cuts);
    assert h[0].rows == Run(c, events[..cuts[0]]).records;
    assert h[|h| - 1].rows == Run(c, events[..cuts[|cuts| - 1]]).records;
    hide Run, ReadPage, Session, IsSession, QueryAfter, GetsShortPage, ReadSession, IsHistory, Below, Matches;
    PagesAreComplete(h, Sequence, keep, q.before, PageSize(q), r);
  }

  lemma SinceIsKept(c: Config, events: seq<Event>, cuts: seq<nat>, q: LogQuery)
    requires IsSession(events, cuts)
    ensures QueryAfter(c, events, cuts, q).since == q.since
    decreases |cuts|
  {
    hide Run, ReadPage;
    if cuts != [] {
      var page := ReadPage(Run(c, events[..cuts[0]]), q).records;
      SinceIsKept(c, events, cuts[1..], q.(before := Cursor(page, Sequence, q.before)));
    }
  }

  /**
   A session reads a kept record if and only if the pages that honour the first read's `since`
   have taken the cursor past it, and one short page among those takes it past all of them.
   */
  lemma KeptIsReadExactlyWhen(c: Config, events: seq<Event>, cuts: seq<nat>, q: LogQuery, r: LogRecord)
    requires c.maxRecords > 0 && TimesFit(events) && |events| < U64_MAX && IsSession(events, cuts) && cuts != []
    requires IsKept(c, events, cuts, q, r)
    ensures var m := SteadyReads(c, events, cuts, q);
            && IsSession(events, cuts[..m])
            && (r in ReadSession(c, events, cuts, q) <==>
                !Below(QueryAfter(c, events, cuts[..m], q).before, r.sequence))
            && (GetsShortPage(c, events, cuts[..m], q) ==> r in ReadSession(c, events, cuts, q))
  {
    hide *;
    var m := SteadyReads(c, events, cuts, q);
    var early, late := cuts[..m], cuts[m..];
    SteadySince(c, events, cuts, q);
    SteadyCuts(events, cuts, m);
    SessionSplits(c, events, cuts, q, m);
    SinceIsKept(c, events, early, q);
    KeptInEarlyReads(c, events, cuts, q, r, m);
    SteadyPagesReadExactlyWhen(c, events, early, q, Since(Run(c, events[..cuts[0]]), q), r);
    var next := QueryAfter(c, events, early, q);
    if m < |cuts| {
      SameReset(c, events, late, q, next);
      LaterReadsAreNewer(c, events, cuts[0], late, next, q, r);
    } else {
      NoPages(c, events, late, next);
    }
  }

  lemma SameReset(c: Config, events: seq<Event>, cuts: seq<nat>, q: LogQuery, next: LogQuery)
    requires IsSession(events, cuts) && next.since == q.since
    requires forall k | 0 <= k < |cuts| :: !Reset(Run(c, events[..cuts[k]]), q)
    ensures forall k | 0 <= k < |cuts| :: !Reset(Run(c, events[..cuts[k]]), next)
  {
    hide Run;
  }

  lemma KeptInEarlyReads(c: Config, events: seq<Event>, cuts: seq<nat>, q: LogQuery, r: LogRecord, m: nat)
    requires c.maxRecords > 0 && TimesFit(events) && |events| < U64_MAX && IsSession(events, cuts) && 0 < m <= |cuts|
    requires IsSession(events, cuts[..m]) && IsKept(c, events, cuts, q, r)
    ensures IsKept(c, events, cuts[..m], q, r) && r in Run(c, events[..cuts[0]]).records
  {
    KeptAtEveryRead(c, events, cuts, q, r, m - 1);
    hide Run;
  }

  lemma NoPages(c: Config, events: seq<Event>, cuts: seq<nat>, q: LogQuery)
    requires IsSession(events, cuts) && |cuts| == 0
    ensures ReadSession(c, events, cuts, q) == []
  {}

  /**
   A session that meets a short page before its cursor stops being reset has read every kept
   record, whatever was captured and evicted in between; any other session has done so if and
   only if no kept record lies below the cursor at which the resets ended.
   */
  lemma SessionIsCompleteExactlyWhen(c: Config, events: seq<Event>, cuts: seq<nat>, q: LogQuery)
    requires c.maxRecords > 0 && TimesFit(events) && |events| < U64_MAX && IsSession(events, cuts) && cuts != []
    ensures var early := cuts[..SteadyReads(c, events, cuts, q)];
            && IsSession(events, early)
            && ((forall r | IsKept(c, events, cuts, q, r) :: r in ReadSession(c, events, cuts, q)) <==>
                || GetsShortPage(c, events, early, q)
                || forall r | IsKept(c, events, cuts, q, r) ::
                     !Below(QueryAfter(c, events, early, q).before, r.sequence))
  {
    SteadyCuts(events, cuts, SteadyReads(c, events, cuts, q));
    forall r | IsKept(c, events, cuts, q, r)
      ensures var early := cuts[..SteadyReads(c, events, cuts, q)];
              && (r in ReadSession(c, events, cuts, q) <==> !Below(QueryAfter(c, events, early, q).before, r.sequence))
              && (GetsShortPage(c, events, early, q) ==> r in ReadSession(c, events, cuts, q))
    {
      KeptIsReadExactlyWhen(c, events, cuts, q, r);
    }
    hide *;
  }

  /** Pages asked for until one comes back short, all honouring the same `since`, miss no kept record. */
  lemma SessionIsComplete(c: Config, events: seq<Event>, cuts: seq<nat>, q: LogQuery, r: LogRecord)
    requires c.maxRecords > 0 && TimesFit(events) && |events| < U64_MAX && IsSession(events, cuts) && cuts != []
    requires SteadyReads(c, events, cuts, q) == |cuts| && GetsShortPage(c, events, cuts, q)
    requires IsKept(c, events, cuts, q, r)
    ensures r in ReadSession(c, events, cuts, q)
  {
    KeptIsReadExactlyWhen(c, events, cuts, q, r);
    assert cuts[..|cuts|] == cuts;
  }

  /**
   A `since` ahead of the ring is ignored only until the ring has passed it: two records are held,
   one is read with `since` 3, a third is captured, and the next page misses the first record.
   */
  lemma OvertakenResetMissesARecord(e: Event)
    requires e.occurredAt >= I64_MIN
    ensures var c, q, r := Config(0, 9), LogQuery(Some(3), None, 1, None, None), LogRecord(1, e);
            && IsSession([e, e, e], [2, 3])
            && Reset(Run(c, [e, e, e][..2]), q)
            && r in Run(c, [e, e, e][..2]).records && r in Run(c, [e, e, e][..3]).records
            && ReadSession(c, [e, e, e], [2, 3], q) == [LogRecord(2, e)]
  {
    var c, q := Config(0, 9), LogQuery(Some(3), None, 1, None, None);
    var r1, r2, r3 := LogRecord(1, e), LogRecord(2, e), LogRecord(3, e);
    var events, cuts: seq<nat> := [e, e, e], [2, 3];
    RunsOfThree(c, e);
    assert events[..2] == [e, e] && events[..3] == events;
    hide Run, Push, Cutoff, DropOld, Issued, ReadSession, ReadPage;
    var s2, s3 := Run(c, events[..2]), Run(c, events[..3]);
    NewestRecord(s2, q, r1, r2);
    NothingNewer(s3, q.(before := Some(2)));
    TwoReads(c, events, 2, 3, q, r2);
  }

  lemma TwoReads(c: Config, events: seq<Event>, a: nat, b: nat, q: LogQuery, x: LogRecord)
    requires a <= b <= |events| && ReadPage(Run(c, events[..a]), q).records == [x]
    requires ReadPage(Run(c, events[..b]), q.(before := Some(x.sequence))).records == []
    ensures IsSession(events, [a, b]) && ReadSession(c, events, [a, b], q) == [x]
  {
    hide Run, ReadPage;
    var cuts, tail: seq<nat> := [a, b], [b];
    assert cuts[1..] == tail && |tail[1..]| == 0;
    assert ReadSession(c, events, tail, q.(before := Some(x.sequence))) == [];
  }

  lemma NewestRecord(s: State, q: LogQuery, r1: LogRecord, r2: LogRecord)
    requires s.records == [r1, r2] && Reset(s, q) && q == LogQuery(q.since, None, 1, None, None)
    ensures ReadPage(s, q).records == [r2]
  {
    assert [r1, r2][..1] == [r1];
    var any := (r: LogRecord) => Matches(q, None, r);
    assert Page(s.records, Sequence, any, None, 1) == [r2];
    var since := Since(s, q);
    SamePage(s.records, r => Matches(q, since, r), any, None, 1);
  }

  lemma EmptyOrMember(page: seq<LogRecord>)
    ensures page == [] || exists r :: r in page
  {
    if page != [] { assert page[0] in page; }
  }

  lemma NothingNewer(s: State, q: LogQuery)
    requires Ascending(s.records, Sequence) && !Reset(s, q)
    requires q.since.Some? && q.before.Some? && q.before.value <= q.since.value
    ensures ReadPage(s, q).records == []
  {
    var newer := (r: LogRecord) => Matches(q, q.since, r);
    SameMatches(s, q, newer);
    PageFacts(s.records, Sequence, newer, q.before, PageSize(q));
    var page := ReadPage(s, q).records;
    hide ReadPage;
    EmptyOrMember(page);
  }

  lemma RunsOfThree(c: Config, e: Event)
    requires c == Config(0, 9) && e.occurredAt >= I64_MIN
    ensures Run(c, [e, e]).records == [LogRecord(1, e), LogRecord(2, e)] && Run(c, [e, e]).nextSequence == 3
    ensures Run(c, [e, e, e]).records == [LogRecord(1, e), LogRecord(2, e), LogRecord(3, e)]
    ensures Run(c, [e, e, e]).nextSequence == 4
    ensures Ascending(Run(c, [e, e, e]).records, Sequence)
  {
    var one, two, three := [e], [e, e], [e, e, e];
    assert one[..0] == [] && two[..1] == one && three[..2] == two;
    assert Run(c, []) == EMPTY;
    RunStep(c, one);
    RunStep(c, two);
    RunStep(c, three);
    hide Run, Push, Cutoff, DropOld;
    PushSameTime(EMPTY, c, e);
    PushSameTime(Run(c, one), c, e);
    PushSameTime(Run(c, two), c, e);
  }

  /** A record of the same time as all the others evicts nothing while there is room. */
  lemma PushSameTime(s: State, c: Config, e: Event)
    requires e.occurredAt >= I64_MIN && s.dropped == 0 && s.nextSequence < U64_MAX && |s.records| < c.maxRecords
    requires forall i | 0 <= i < |s.records| :: s.records[i].event == e
    ensures Push(s, c, e) == State(s.records + [LogRecord(s.nextSequence, e)], s.nextSequence + 1, 0)
  {
    var all := s.records + [LogRecord(s.nextSequence, e)];
    assert all[0].event == e;
    assert DropOld(all, Cutoff(e.occurredAt, c.retentionMs)) == all;
    hide DropOld;
  }

  // ---------------------------------------------------------------- the buffer

  class Buffer {
    var records: seq<LogRecord>
    var nextSequence: int
    var dropped: int
    const retentionMs: Option<nat>
    const maxRecords: nat

    function Now(): State
      reads this
    {
      State(records, nextSequence, dropped)
    }

    function Settings(): Config { Config(if retentionMs.Some? then retentionMs.value else 0, maxRecords) }

    constructor (retentionHours: nat, maxRecords: nat)
      ensures Now() == EMPTY && this.maxRecords > 0
      ensures retentionMs == (if retentionHours > 0 then Some(retentionHours * 3_600_000) else None)
      ensures maxRecords > 0 ==> this.maxRecords == maxRecords
    {
      records, nextSequence, dropped := [], 1, 0;
      retentionMs := if retentionHours > 0 then Some(retentionHours * 3_600_000) else None;
      this.maxRecords := if maxRecords > 1 then maxRecords else 1;
    }

    /** Appends one record and evicts what no longer fits; does nothing when capture is off. */
    method Append(e: Event)
      requires maxRecords > 0 && 0 <= dropped <= U64_MAX && nextSequence <= U64_MAX
      modifies this
      ensures Now() == if retentionMs.Some? then Push(old(Now()), Settings(), e) else old(Now())
    {
      if retentionMs.None? { return; }
      records := records + [LogRecord(nextSequence, e)];
      nextSequence := if nextSequence >= U64_MAX then U64_MAX else nextSequence + 1;
      EvictOld(Cutoff(e.occurredAt, retentionMs.value));
      EvictExcess();
    }

    method EvictOld(cutoff: int)
      modifies this`records
      ensures records == DropOld(old(records), cutoff)
    {
      while records != [] && records[0].event.occurredAt < cutoff
        invariant DropOld(records, cutoff) == DropOld(old(records), cutoff)
        decreases |records|
      {
        records := records[1..];
      }
    }

    method EvictExcess()
      requires 0 <= dropped <= U64_MAX
      modifies this`records, this`dropped
      ensures records == Last(old(records), maxRecords)
      ensures dropped == Saturate(old(dropped) + (|old(records)| - |records|))
    {
      ghost var young := records;
      while |records| > maxRecords
        invariant |records| <= |young| && records == young[|young| - |records|..]
        invariant |young| > maxRecords ==> |records| >= maxRecords
        invariant |young| <= maxRecords ==> records == young
        invariant dropped == Saturate(old(dropped) + (|young| - |records|))
        decreases |records|
      {
        records := records[1..];
        dropped := if dropped >= U64_MAX then U64_MAX else dropped + 1;
      }
    }

    method Read(q: LogQuery) returns (page: LogPage)
      ensures page == ReadPage(Now(), q)
    {
      var newest := if nextSequence == 0 then 0 else nextSequence - 1;
      var stats := Stats(|records|, if records == [] then None else Some(records[0].event.occurredAt), newest, dropped);
      var reset := q.since.Some? && q.since.value > newest;
      var since := if reset then None else q.since;
      var limit := if q.limit > 1 then q.limit else 1;
      page := LogPage(Page(records, Sequence, r => Matches(q, since, r), q.before, limit), stats, reset);
    }
  }
}
