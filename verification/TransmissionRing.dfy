/**
 The persisted ring of poll transmissions: pruning by age and by row count in bounded chunks, and
 the keyset-paged reads.
 */
module TransmissionRing {
  import opened Paging
  import opened Wrappers

  const PRUNE_CHUNK: nat := 5000
  const MAX_READ_LIMIT: int := 1000
  const I64_MIN: int := -0x8000_0000_0000_0000
  const I64_MAX: int := 0x7FFF_FFFF_FFFF_FFFF

  /** A stored transmission; `payload` stands for the columns that pruning and paging do not look at. */
  datatype Row = Row(id: int, occurredAt: int, outcome: string, target: string, serials: set<int>, payload: int)

  // ---------------------------------------------------------------- tables in key order

  function RowId(r: Row): int { r.id }

  /** The rows that are too old, and the rows that are not. */
  function Aged(rows: seq<Row>, cutoff: int): seq<Row> {
    if rows == [] then []
    else (if rows[0].occurredAt < cutoff then [rows[0]] else []) + Aged(rows[1..], cutoff)
  }

  function Young(rows: seq<Row>, cutoff: int): seq<Row> {
    if rows == [] then []
    else (if rows[0].occurredAt < cutoff then [] else [rows[0]]) + Young(rows[1..], cutoff)
  }

  /** Without the first `limit` of the rows that are too old, in key order. */
  function DropAged(rows: seq<Row>, cutoff: int, limit: nat): seq<Row> {
    if rows == [] || limit == 0 then rows
    else if rows[0].occurredAt < cutoff then DropAged(rows[1..], cutoff, limit - 1)
    else [rows[0]] + DropAged(rows[1..], cutoff, limit)
  }

  function Newest(rows: seq<Row>): int
    requires rows != []
  {
    if |rows| == 1 then rows[0].occurredAt
    else if Newest(rows[1..]) >= rows[0].occurredAt then Newest(rows[1..]) else rows[0].occurredAt
  }

  function Min(a: nat, b: nat): nat { if a < b then a else b }

  function Last(rows: seq<Row>, n: nat): seq<Row> { if |rows| <= n then rows else rows[|rows| - n..] }

  function Cap(maxRows: int): nat { if maxRows > 0 then maxRows else 0 }

  /** An age limit relative to the newest stored row; the subtraction saturates. */
  function Cutoff(rows: seq<Row>, retention: nat): int
    requires rows != []
  {
    if Newest(rows) - retention < I64_MIN then I64_MIN else Newest(rows) - retention
  }

  /** The table after one call: an age chunk from the oldest keys, then a chunk beyond the row cap. */
  function Pruned(rows: seq<Row>, retention: nat, maxRows: int): seq<Row> {
    if rows == [] then []
    else
      var young := DropAged(rows, Cutoff(rows, retention), PRUNE_CHUNK);
      var excess := if |young| > Cap(maxRows) then |young| - Cap(maxRows) else 0;
      young[Min(excess, PRUNE_CHUNK)..]
  }

  /** Whether either chunk was full, so that more may remain. */
  function More(rows: seq<Row>, retention: nat, maxRows: int): bool {
    rows != [] &&
    var young := DropAged(rows, Cutoff(rows, retention), PRUNE_CHUNK);
    (|rows| - |young| >= PRUNE_CHUNK || |young| - Cap(maxRows) >= PRUNE_CHUNK)
  }

  /** What the ring is meant to hold: the newest rows by key among those inside the window. */
  function Ideal(rows: seq<Row>, retention: nat, maxRows: int): seq<Row> {
    if rows == [] then [] else Last(Young(rows, Cutoff(rows, retention)), Cap(maxRows))
  }

  lemma {:induction false} DropAgedCounts(rows: seq<Row>, cutoff: int, limit: nat)
    ensures |DropAged(rows, cutoff, limit)| == |rows| - Min(|Aged(rows, cutoff)|, limit)
    ensures |Aged(rows, cutoff)| <= limit ==> DropAged(rows, cutoff, limit) == Young(rows, cutoff)
  {
    if rows != [] {
      if rows[0].occurredAt < cutoff {
        if limit > 0 { DropAgedCounts(rows[1..], cutoff, limit - 1); }
      } else {
        DropAgedCounts(rows[1..], cutoff, limit);
      }
      if limit == 0 && Aged(rows, cutoff) == [] { AllYoung(rows, cutoff); }
    }
  }

  lemma {:induction false} AllYoung(rows: seq<Row>, cutoff: int)
    requires Aged(rows, cutoff) == []
    ensures Young(rows, cutoff) == rows
  {
    if rows != [] { AllYoung(rows[1..], cutoff); }
  }

  lemma {:induction false} YoungAreYoung(rows: seq<Row>, cutoff: int)
    ensures |Young(rows, cutoff)| <= |rows|
    ensures forall i | 0 <= i < |Young(rows, cutoff)| :: Young(rows, cutoff)[i].occurredAt >= cutoff
    ensures forall r | r in rows && r.occurredAt >= cutoff :: r in Young(rows, cutoff)
    ensures forall r | r in Young(rows, cutoff) :: r in rows
  {
    if rows != [] { YoungAreYoung(rows[1..], cutoff); }
  }

  lemma {:induction false} NewestIsAttained(rows: seq<Row>)
    requires rows != []
    ensures exists i | 0 <= i < |rows| :: rows[i].occurredAt == Newest(rows)
    ensures forall i | 0 <= i < |rows| :: rows[i].occurredAt <= Newest(rows)
  {
    if |rows| == 1 {
      assert rows[0].occurredAt == Newest(rows);
    } else {
      NewestIsAttained(rows[1..]);
      var k :| 0 <= k < |rows[1..]| && rows[1..][k].occurredAt == Newest(rows[1..]);
      assert rows[k + 1].occurredAt == Newest(rows[1..]);
      assert rows[0].occurredAt == Newest(rows) || rows[k + 1].occurredAt == Newest(rows);
      forall i | 0 <= i < |rows|
        ensures rows[i].occurredAt <= Newest(rows)
      {
        if i > 0 { assert rows[i] == rows[1..][i - 1]; }
      }
    }
  }

  /** When nothing more is reported, the table is exactly what the ring is meant to hold. */
  lemma SettledIsIdeal(rows: seq<Row>, retention: nat, maxRows: int)
    requires !More(rows, retention, maxRows)
    ensures Pruned(rows, retention, maxRows) == Ideal(rows, retention, maxRows)
  {
    if rows != [] {
      hide DropAged, Young, Aged, Newest, Cutoff;
      DropAgedCounts(rows, Cutoff(rows, retention), PRUNE_CHUNK);
    }
  }

  /** ... so within both bounds, whatever the order of the timestamps. */
  lemma IdealIsBounded(rows: seq<Row>, retention: nat, maxRows: int)
    ensures |Ideal(rows, retention, maxRows)| <= Cap(maxRows)
    ensures forall r | r in Ideal(rows, retention, maxRows) ::
              r in rows && r.occurredAt >= Cutoff(rows, retention)
    ensures forall r | r in rows && r.occurredAt >= Cutoff(rows, retention) ::
              r in Ideal(rows, retention, maxRows) || |Ideal(rows, retention, maxRows)| == Cap(maxRows)
  {
    if rows != [] {
      hide Young, Cutoff;
      YoungAreYoung(rows, Cutoff(rows, retention));
    }
  }

  /** A call that reports more removed at least a full chunk. */
  lemma MoreRemovesAChunk(rows: seq<Row>, retention: nat, maxRows: int)
    requires More(rows, retention, maxRows)
    ensures |Pruned(rows, retention, maxRows)| <= |rows| - PRUNE_CHUNK
  {
    hide DropAged, Cutoff;
    DropAgedCounts(rows, Cutoff(rows, retention), PRUNE_CHUNK);
  }

  /** Pruning by age never removes a row with the newest timestamp, whatever the order. */
  lemma {:induction false} AgeKeepsNewest(rows: seq<Row>, cutoff: int, limit: nat, r: Row)
    requires r in rows && r.occurredAt >= cutoff
    ensures r in DropAged(rows, cutoff, limit)
  {
    if rows[0] != r && limit > 0 {
      if rows[0].occurredAt < cutoff {
        AgeKeepsNewest(rows[1..], cutoff, limit - 1, r);
      } else {
        AgeKeepsNewest(rows[1..], cutoff, limit, r);
      }
    }
  }

  lemma NewestSurvivesAge(rows: seq<Row>, retention: nat, r: Row)
    requires r in rows && r.occurredAt == Newest(rows) && r.occurredAt >= I64_MIN
    ensures r in DropAged(rows, Cutoff(rows, retention), PRUNE_CHUNK)
  {
    hide Newest;
    AgeKeepsNewest(rows, Cutoff(rows, retention), PRUNE_CHUNK, r);
  }

  // ---------------------------------------------------------------- chunks against the whole

  predicate TimeOrdered(rows: seq<Row>) {
    forall i, j | 0 <= i <= j < |rows| :: rows[i].occurredAt <= rows[j].occurredAt
  }

  lemma FirstAged(rows: seq<Row>, cutoff: int, limit: nat, a: nat)
    requires rows != [] && rows[0].occurredAt < cutoff && a <= |rows| - 1 && |Aged(rows[1..], cutoff)| == a
    requires Young(rows[1..], cutoff) == rows[1..][a..]
    requires limit > 0 ==> DropAged(rows[1..], cutoff, limit - 1) == rows[1..][Min(a, limit - 1)..]
    ensures |Aged(rows, cutoff)| == a + 1 && Young(rows, cutoff) == rows[a + 1..]
    ensures DropAged(rows, cutoff, limit) == rows[Min(a + 1, limit)..]
  {
    assert rows[1..][a..] == rows[a + 1..];
    if limit > 0 { assert rows[1..][Min(a, limit - 1)..] == rows[Min(a + 1, limit)..]; }
  }

  /** With a clock that never stepped back, both prunings cut a prefix off. */
  lemma {:induction false} AgedIsPrefix(rows: seq<Row>, cutoff: int, limit: nat)
    requires TimeOrdered(rows)
    ensures |Aged(rows, cutoff)| <= |rows|
    ensures DropAged(rows, cutoff, limit) == rows[Min(|Aged(rows, cutoff)|, limit)..]
    ensures Young(rows, cutoff) == rows[|Aged(rows, cutoff)|..]
  {
    if rows != [] {
      if rows[0].occurredAt < cutoff {
        hide Aged, Young, DropAged;
        SuffixIsOrdered(rows, 1);
        AgedIsPrefix(rows[1..], cutoff, if limit > 0 then limit - 1 else 0);
        hide TimeOrdered;
        FirstAged(rows, cutoff, limit, |Aged(rows[1..], cutoff)|);
      } else {
        NoneAged(rows, cutoff);
        AllYoung(rows, cutoff);
        DropAgedCounts(rows, cutoff, limit);
      }
    }
  }

  lemma {:induction false} NoneAged(rows: seq<Row>, cutoff: int)
    requires forall i | 0 <= i < |rows| :: rows[i].occurredAt >= cutoff
    ensures Aged(rows, cutoff) == []
  {
    if rows != [] { NoneAged(rows[1..], cutoff); }
  }

  lemma {:induction false} NewestIsLast(rows: seq<Row>)
    requires rows != [] && TimeOrdered(rows)
    ensures Newest(rows) == rows[|rows| - 1].occurredAt
  {
    if |rows| > 1 {
      assert rows[1..][|rows| - 2] == rows[|rows| - 1];
      NewestIsLast(rows[1..]);
    }
  }

  lemma {:induction false} AgedOfSuffix(rows: seq<Row>, cutoff: int, n: nat)
    requires TimeOrdered(rows) && n <= |rows|
    ensures |Aged(rows[n..], cutoff)| == if n < |Aged(rows, cutoff)| then |Aged(rows, cutoff)| - n else 0
  {
    if n > 0 {
      assert rows[n..] == rows[1..][n - 1..];
      AgedOfSuffix(rows[1..], cutoff, n - 1);
      if rows[0].occurredAt >= cutoff { NoneAged(rows, cutoff); NoneAged(rows[1..], cutoff); }
    } else {
      assert rows[0..] == rows;
    }
  }

  /** How many rows the two bounds rule out when times follow keys. */
  function Surplus(rows: seq<Row>, retention: nat, maxRows: int): nat
    requires rows != []
  {
    var aged := |Aged(rows, Cutoff(rows, retention))|;
    var excess := if |rows| > Cap(maxRows) then |rows| - Cap(maxRows) else 0;
    if aged > excess then aged else excess
  }

  lemma IdealIsSuffix(rows: seq<Row>, retention: nat, maxRows: int)
    requires rows != [] && TimeOrdered(rows)
    ensures Surplus(rows, retention, maxRows) <= |rows|
    ensures Ideal(rows, retention, maxRows) == rows[Surplus(rows, retention, maxRows)..]
  {
    hide Aged, Young, Cutoff, Newest, DropAged;
    AgedIsPrefix(rows, Cutoff(rows, retention), 0);
    hide TimeOrdered;
  }

  lemma PrunedIsSuffix(rows: seq<Row>, retention: nat, maxRows: int) returns (n: nat)
    requires rows != [] && TimeOrdered(rows)
    ensures n <= Surplus(rows, retention, maxRows) && n <= |rows|
    ensures Pruned(rows, retention, maxRows) == rows[n..]
  {
    hide Aged, DropAged, Cutoff, Newest;
    var cutoff := Cutoff(rows, retention);
    AgedIsPrefix(rows, cutoff, PRUNE_CHUNK);
    hide TimeOrdered;
    var a := Min(|Aged(rows, cutoff)|, PRUNE_CHUNK);
    var young := rows[a..];
    var excess := if |young| > Cap(maxRows) then |young| - Cap(maxRows) else 0;
    n := a + Min(excess, PRUNE_CHUNK);
    assert young[Min(excess, PRUNE_CHUNK)..] == rows[n..];
  }

  lemma SurplusOfSuffix(rows: seq<Row>, retention: nat, maxRows: int, n: nat)
    requires TimeOrdered(rows) && n < |rows| && n <= Surplus(rows, retention, maxRows)
    ensures TimeOrdered(rows[n..])
    ensures Surplus(rows[n..], retention, maxRows) == Surplus(rows, retention, maxRows) - n
  {
    SuffixIsOrdered(rows, n);
    hide TimeOrdered, Newest, Aged;
    NewestIsLast(rows);
    NewestIsLast(rows[n..]);
    AgedOfSuffix(rows, Cutoff(rows, retention), n);
  }

  lemma OrderedChunkKeepsAim(rows: seq<Row>, retention: nat, maxRows: int)
    requires TimeOrdered(rows)
    ensures TimeOrdered(Pruned(rows, retention, maxRows))
    ensures Ideal(Pruned(rows, retention, maxRows), retention, maxRows) == Ideal(rows, retention, maxRows)
  {
    if rows != [] {
      hide TimeOrdered, Pruned, Ideal, Surplus;
      var n := PrunedIsSuffix(rows, retention, maxRows);
      IdealIsSuffix(rows, retention, maxRows);
      var rest := rows[n..];
      if rest == [] {
        EmptyAim(retention, maxRows);
      } else {
        SurplusOfSuffix(rows, retention, maxRows, n);
        IdealIsSuffix(rest, retention, maxRows);
        assert rest[Surplus(rest, retention, maxRows)..] == rows[Surplus(rows, retention, maxRows)..];
      }
    }
  }

  /** No more rows are too old than one chunk removes. */
  predicate OneAgeChunk(rows: seq<Row>, retention: nat) {
    rows != [] ==> |Aged(rows, Cutoff(rows, retention))| <= PRUNE_CHUNK
  }

  lemma NewestOfPart(part: seq<Row>, rows: seq<Row>)
    requires part != [] && rows != [] && forall r | r in part :: r in rows
    ensures Newest(part) <= Newest(rows)
  {
    NewestIsAttained(part);
    NewestIsAttained(rows);
    var i :| 0 <= i < |part| && part[i].occurredAt == Newest(part);
    assert part[i] in rows;
  }

  /** Rows of which none is too old: the aim is the newest of them by key. */
  lemma AimOfYoung(rows: seq<Row>, cutoff: int, retention: nat, maxRows: int)
    requires forall i | 0 <= i < |rows| :: rows[i].occurredAt >= cutoff
    requires rows != [] ==> Cutoff(rows, retention) <= cutoff
    ensures OneAgeChunk(rows, retention) && Ideal(rows, retention, maxRows) == Last(rows, Cap(maxRows))
  {
    if rows != [] {
      NoneAged(rows, Cutoff(rows, retention));
      AllYoung(rows, Cutoff(rows, retention));
    }
  }

  lemma OneAgeChunkKeepsAim(rows: seq<Row>, retention: nat, maxRows: int)
    requires OneAgeChunk(rows, retention)
    ensures OneAgeChunk(Pruned(rows, retention, maxRows), retention)
    ensures Ideal(Pruned(rows, retention, maxRows), retention, maxRows) == Ideal(rows, retention, maxRows)
  {
    if rows != [] {
      var cutoff := Cutoff(rows, retention);
      YoungAreYoung(rows, cutoff);
      PrunedOfYoung(rows, retention, maxRows);
      hide Pruned, Young, Cutoff, OneAgeChunk;
      var young, kept := Young(rows, cutoff), Pruned(rows, retention, maxRows);
      assert forall i | 0 <= i < |kept| :: kept[i] == young[|young| - |kept| + i];
      if kept != [] { CutoffOfPart(kept, rows, retention); }
      AimOfYoung(kept, cutoff, retention, maxRows);
    }
  }

  /** When one chunk removes all old rows, only young rows are left, the newest of them by key. */
  lemma PrunedOfYoung(rows: seq<Row>, retention: nat, maxRows: int)
    requires rows != [] && OneAgeChunk(rows, retention)
    ensures var young, kept := Young(rows, Cutoff(rows, retention)), Pruned(rows, retention, maxRows);
            && |kept| <= |young| && kept == young[|young| - |kept|..]
            && Last(kept, Cap(maxRows)) == Last(young, Cap(maxRows))
  {
    DropAgedCounts(rows, Cutoff(rows, retention), PRUNE_CHUNK);
    hide DropAged, Aged, Young, Cutoff;
  }

  lemma CutoffOfPart(part: seq<Row>, rows: seq<Row>, retention: nat)
    requires part != [] && rows != [] && forall r | r in part :: r in rows
    ensures Cutoff(part, retention) <= Cutoff(rows, retention)
  {
    NewestOfPart(part, rows);
  }

  /** Times follow keys, or one chunk removes all rows that are too old. */
  predicate ChunksAreEnough(rows: seq<Row>, retention: nat) { TimeOrdered(rows) || OneAgeChunk(rows, retention) }

  /** Then a chunked call leaves the aim unchanged, so repeating it reaches the aim. */
  lemma ChunkKeepsAim(rows: seq<Row>, retention: nat, maxRows: int)
    requires ChunksAreEnough(rows, retention)
    ensures ChunksAreEnough(Pruned(rows, retention, maxRows), retention)
    ensures Ideal(Pruned(rows, retention, maxRows), retention, maxRows) == Ideal(rows, retention, maxRows)
  {
    hide TimeOrdered, Pruned, Ideal, OneAgeChunk;
    if TimeOrdered(rows) { OrderedChunkKeepsAim(rows, retention, maxRows); } else { OneAgeChunkKeepsAim(rows, retention, maxRows); }
  }

  /**
   Otherwise the row cap can overtake the age limit: after a step back of the clock one fresh row
   is followed by more old rows than a chunk, and the cap of one row removes the fresh row.
   */
  lemma ClockStepLosesTheFreshRow(now: Row, old': Row)
    requires now.occurredAt == 100 && old'.occurredAt == 0
    ensures var rows := [now] + seq(PRUNE_CHUNK + 1, _ => old');
            Ideal(rows, 0, 1) == [now] && Pruned(rows, 0, 1) == [old']
  {
    var tail := seq(PRUNE_CHUNK + 1, _ => old');
    var rows := [now] + tail;
    assert rows[0] == now && rows[1..] == tail;
    NewestIsAttained(tail);
    var k :| 0 <= k < |tail| && tail[k].occurredAt == Newest(tail);
    assert tail[k] == old';
    assert Newest(rows) == 100;
    AgedTail(tail);
    hide Newest;
    assert Cutoff(rows, 0) == 100;
    assert Young(rows, 100) == [now];
    assert DropAged(rows, 100, PRUNE_CHUNK) == [now] + DropAged(tail, 100, PRUNE_CHUNK);
  }

  lemma AgedTail(tail: seq<Row>)
    requires |tail| == PRUNE_CHUNK + 1 && forall i | 0 <= i < |tail| :: tail[i].occurredAt == 0
    ensures Young(tail, 100) == [] && DropAged(tail, 100, PRUNE_CHUNK) == [tail[PRUNE_CHUNK]]
  {
    AgedIsPrefix(tail, 100, PRUNE_CHUNK);
    AllAged(tail, 100);
    hide *;
    assert tail[PRUNE_CHUNK..] == [tail[PRUNE_CHUNK]];
  }

  lemma {:induction false} AllAged(rows: seq<Row>, cutoff: int)
    requires forall i | 0 <= i < |rows| :: rows[i].occurredAt < cutoff
    ensures |Aged(rows, cutoff)| == |rows|
  {
    if rows != [] { AllAged(rows[1..], cutoff); }
  }

  lemma SuffixIsOrdered(rows: seq<Row>, n: nat)
    requires TimeOrdered(rows) && n <= |rows|
    ensures TimeOrdered(rows[n..])
  {}

  lemma EmptyAim(retention: nat, maxRows: int)
    ensures Ideal([], retention, maxRows) == [] && TimeOrdered([])
  {}

  // ---------------------------------------------------------------- the statements

  /** DELETE of the rows up to a watermark, at most `limit` of them in key order. */
  function DropUpTo(rows: seq<Row>, watermark: int, limit: nat): seq<Row> {
    if rows == [] || limit == 0 then rows
    else if rows[0].id <= watermark then DropUpTo(rows[1..], watermark, limit - 1)
    else [rows[0]] + DropUpTo(rows[1..], watermark, limit)
  }

  lemma {:induction false} DropUpToIsPrefix(rows: seq<Row>, n: nat, limit: nat)
    requires Ascending(rows, RowId) && n < |rows|
    ensures DropUpTo(rows, rows[n].id, limit) == rows[Min(n + 1, limit)..]
  {
    if limit > 0 {
      assert RowId(rows[0]) == rows[0].id && RowId(rows[n]) == rows[n].id;
      assert rows[0].id <= rows[n].id;
      var rest := rows[1..];
      AscendingRest(rows);
      if n > 0 {
        DropUpToIsPrefix(rest, n - 1, limit - 1);
        assert rest[n - 1] == rows[n];
        assert rest[Min(n, limit - 1)..] == rows[Min(n + 1, limit)..];
      } else {
        NothingUpTo(rest, rows[0].id, limit - 1);
      }
    }
  }

  lemma AscendingRest(rows: seq<Row>)
    requires Ascending(rows, RowId) && rows != []
    ensures Ascending(rows[1..], RowId) && forall i | 0 <= i < |rows[1..]| :: rows[0].id < rows[1..][i].id
  {
    forall i | 0 <= i < |rows[1..]|
      ensures rows[0].id < rows[1..][i].id
    {
      assert RowId(rows[0]) < RowId(rows[i + 1]);
    }
  }

  lemma {:induction false} NothingUpTo(rows: seq<Row>, watermark: int, limit: nat)
    requires forall i | 0 <= i < |rows| :: rows[i].id > watermark
    ensures DropUpTo(rows, watermark, limit) == rows
  {
    if rows != [] && limit > 0 { NothingUpTo(rows[1..], watermark, limit); }
  }

  lemma {:induction false} DropAgedAscends(rows: seq<Row>, cutoff: int, limit: nat)
    requires Ascending(rows, RowId)
    ensures Ascending(DropAged(rows, cutoff, limit), RowId)
    ensures forall r | r in DropAged(rows, cutoff, limit) :: r in rows
  {
    if rows != [] && limit > 0 {
      var rest := rows[1..];
      AscendingRest(rows);
      if rows[0].occurredAt < cutoff {
        DropAgedAscends(rest, cutoff, limit - 1);
      } else {
        DropAgedAscends(rest, cutoff, limit);
        var kept := DropAged(rest, cutoff, limit);
        hide DropAged;
        AscendingJoin(rows[0], kept, rest);
      }
    }
  }

  lemma AscendingJoin(first: Row, kept: seq<Row>, rest: seq<Row>)
    requires Ascending(kept, RowId) && (forall r | r in kept :: r in rest)
    requires forall i | 0 <= i < |rest| :: first.id < rest[i].id
    ensures Ascending([first] + kept, RowId)
  {
    forall i, j | 0 <= i < j < |[first] + kept|
      ensures RowId(([first] + kept)[i]) < RowId(([first] + kept)[j])
    {
      assert kept[j - 1] in kept;
    }
  }

  lemma PrunedAscends(rows: seq<Row>, retention: nat, maxRows: int)
    requires Ascending(rows, RowId)
    ensures Ascending(Pruned(rows, retention, maxRows), RowId)
    ensures forall r | r in Pruned(rows, retention, maxRows) :: r in rows
  {
    if rows != [] {
      hide DropAged, Newest, Cutoff;
      DropAgedAscends(rows, Cutoff(rows, retention), PRUNE_CHUNK);
    }
  }

  // ---------------------------------------------------------------- the cap against the age limit

  /** The rows that one call deletes beyond the row cap. */
  function CapChunk(rows: seq<Row>, retention: nat, maxRows: int): seq<Row> {
    if rows == [] then []
    else
      var young := DropAged(rows, Cutoff(rows, retention), PRUNE_CHUNK);
      var excess := if |young| > Cap(maxRows) then |young| - Cap(maxRows) else 0;
      young[..Min(excess, PRUNE_CHUNK)]
  }

  /** How many rows inside the window the cap has no room for. */
  function YoungExcess(rows: seq<Row>, retention: nat, maxRows: int): nat {
    if rows == [] then 0
    else
      var young := |Young(rows, Cutoff(rows, retention))|;
      if young > Cap(maxRows) then young - Cap(maxRows) else 0
  }

  lemma YoungFirst(rows: seq<Row>, cutoff: int)
    requires rows != []
    ensures Young(rows, cutoff) == (if rows[0].occurredAt < cutoff then [] else [rows[0]]) + Young(rows[1..], cutoff)
  {}

  lemma {:induction false} YoungJoin(a: seq<Row>, b: seq<Row>, cutoff: int)
    ensures Young(a + b, cutoff) == Young(a, cutoff) + Young(b, cutoff)
  {
    if a == [] {
      assert a + b == b;
    } else {
      YoungFirst(a, cutoff);
      YoungFirst(a + b, cutoff);
      hide Young;
      YoungJoin(a[1..], b, cutoff);
      assert (a + b)[1..] == a[1..] + b;
    }
  }

  lemma {:induction false} DropAgedKeepsYoung(rows: seq<Row>, cutoff: int, limit: nat)
    ensures Young(DropAged(rows, cutoff, limit), cutoff) == Young(rows, cutoff)
  {
    if rows != [] && limit > 0 {
      if rows[0].occurredAt < cutoff {
        DropAgedKeepsYoung(rows[1..], cutoff, limit - 1);
      } else {
        DropAgedKeepsYoung(rows[1..], cutoff, limit);
        var kept := DropAged(rows[1..], cutoff, limit);
        assert ([rows[0]] + kept)[1..] == kept;
      }
    }
  }

  /** The newest `cap` of two parts lie in the second one exactly when the first holds no more than there is no room for. */
  lemma NewestInSecond(a: seq<Row>, b: seq<Row>, cap: nat)
    requires forall r | r in a :: r !in b
    ensures (forall r | r in Last(a + b, cap) :: r in b) <==> |a| <= (if |a + b| > cap then |a + b| - cap else 0)
  {
    var all, d := a + b, if |a + b| > cap then |a + b| - cap else 0;
    assert Last(all, cap) == all[d..];
    if |a| > d {
      assert all[d] == a[d] && all[d] == all[d..][0];
      assert all[d] in a && all[d] in all[d..];
    } else {
      assert all[d..] == b[d - |a|..];
    }
  }

  /**
   One call spares every row that the ring is meant to hold if and only if the rows it deletes
   beyond the cap hold no more rows inside the window than the cap has no room for.
   */
  lemma IdealSurvivesExactlyWhen(rows: seq<Row>, retention: nat, maxRows: int)
    requires rows != [] && Ascending(rows, RowId)
    ensures (forall r | r in Ideal(rows, retention, maxRows) :: r in Pruned(rows, retention, maxRows)) <==>
            |Young(CapChunk(rows, retention, maxRows), Cutoff(rows, retention))| <= YoungExcess(rows, retention, maxRows)
  {
    hide Young, DropAged, Cutoff, Newest, Ascending;
    var cutoff := Cutoff(rows, retention);
    var kept := DropAged(rows, cutoff, PRUNE_CHUNK);
    var first, second := CapChunk(rows, retention, maxRows), Pruned(rows, retention, maxRows);
    assert kept == first + second;
    DropAgedKeepsYoung(rows, cutoff, PRUNE_CHUNK);
    DropAgedAscends(rows, cutoff, PRUNE_CHUNK);
    YoungJoin(first, second, cutoff);
    YoungAreYoung(first, cutoff);
    YoungAreYoung(second, cutoff);
    PartsAreDisjoint(first, second);
    hide CapChunk, Pruned;
    var a, b := Young(first, cutoff), Young(second, cutoff);
    NewestInSecond(a, b, Cap(maxRows));
    forall r | r in Ideal(rows, retention, maxRows)
      ensures r in second <==> r in b
    {
      YoungAreYoung(rows, cutoff);
      assert r in Young(rows, cutoff);
    }
  }

  lemma PartsAreDisjoint(a: seq<Row>, b: seq<Row>)
    requires Ascending(a + b, RowId)
    ensures forall r | r in a :: r !in b
  {
    forall r | r in a
      ensures r !in b
    {
      var i :| 0 <= i < |a| && a[i] == r;
      forall j | 0 <= j < |b|
        ensures b[j] != r
      {
        assert (a + b)[i] == r && (a + b)[|a| + j] == b[j];
        assert RowId((a + b)[i]) < RowId((a + b)[|a| + j]);
      }
    }
  }

  /** Repeats the call for as long as it reports more. */
  function Settled(rows: seq<Row>, retention: nat, maxRows: int): (r: seq<Row>)
    decreases |rows|
  {
    if More(rows, retention, maxRows) then
      MoreRemovesAChunk(rows, retention, maxRows);
      Settled(Pruned(rows, retention, maxRows), retention, maxRows)
    else Pruned(rows, retention, maxRows)
  }

  /** The rows that this call deletes beyond the cap end before the first row of the aim. */
  predicate Spares(aim: seq<Row>, rows: seq<Row>, retention: nat, maxRows: int) {
    var chunk := CapChunk(rows, retention, maxRows);
    aim == [] || chunk == [] || chunk[|chunk| - 1].id < aim[0].id
  }

  predicate EveryCallSpares(aim: seq<Row>, rows: seq<Row>, retention: nat, maxRows: int)
    decreases |rows|
  {
    if Spares(aim, rows, retention, maxRows) && More(rows, retention, maxRows) then
      MoreRemovesAChunk(rows, retention, maxRows);
      EveryCallSpares(aim, Pruned(rows, retention, maxRows), retention, maxRows)
    else Spares(aim, rows, retention, maxRows)
  }

  /** Rows of the table in key order, all inside its window. */
  ghost predicate IsAim(aim: seq<Row>, rows: seq<Row>, retention: nat) {
    && Ascending(aim, RowId)
    && (forall r | r in aim :: r in rows)
    && (rows != [] ==> forall r | r in aim :: r.occurredAt >= Cutoff(rows, retention))
  }

  lemma SparedExactlyWhen(aim: seq<Row>, rows: seq<Row>, retention: nat, maxRows: int)
    requires Ascending(rows, RowId) && IsAim(aim, rows, retention)
    ensures (forall r | r in aim :: r in Pruned(rows, retention, maxRows)) <==> Spares(aim, rows, retention, maxRows)
  {
    if rows != [] && aim != [] {
      hide DropAged, Cutoff, Newest, Ascending;
      var kept := DropAged(rows, Cutoff(rows, retention), PRUNE_CHUNK);
      var n := |CapChunk(rows, retention, maxRows)|;
      assert CapChunk(rows, retention, maxRows) == kept[..n] && Pruned(rows, retention, maxRows) == kept[n..];
      AimSurvivesAge(aim, rows, retention);
      hide *;
      SuffixHoldsExactlyWhen(aim, kept, n);
      SparesMeans(aim, kept, n, rows, retention, maxRows);
    }
  }

  lemma SparesMeans(aim: seq<Row>, kept: seq<Row>, n: nat, rows: seq<Row>, retention: nat, maxRows: int)
    requires aim != [] && n <= |kept| && CapChunk(rows, retention, maxRows) == kept[..n]
    ensures Spares(aim, rows, retention, maxRows) <==> n == 0 || kept[n - 1].id < aim[0].id
  {
    hide CapChunk;
  }

  lemma AimSurvivesAge(aim: seq<Row>, rows: seq<Row>, retention: nat)
    requires Ascending(rows, RowId) && IsAim(aim, rows, retention) && rows != []
    ensures var kept := DropAged(rows, Cutoff(rows, retention), PRUNE_CHUNK);
            Ascending(kept, RowId) && Ascending(aim, RowId) && forall r | r in aim :: r in kept
  {
    hide DropAged, Cutoff, Newest, Ascending;
    var cutoff := Cutoff(rows, retention);
    DropAgedAscends(rows, cutoff, PRUNE_CHUNK);
    forall r | r in aim
      ensures r in DropAged(rows, cutoff, PRUNE_CHUNK)
    {
      AgeKeepsNewest(rows, cutoff, PRUNE_CHUNK, r);
    }
  }

  lemma CutByKey(rows: seq<Row>, n: nat)
    requires Ascending(rows, RowId) && 0 < n <= |rows|
    ensures forall r | r in rows[..n] :: r.id <= rows[n - 1].id
    ensures forall r | r in rows[n..] :: r.id > rows[n - 1].id
    ensures forall r | r in rows :: r in rows[..n] || r in rows[n..]
  {
    forall i | 0 <= i < |rows|
      ensures i < n ==> rows[i].id <= rows[n - 1].id
      ensures i >= n ==> rows[i].id > rows[n - 1].id
    {
      assert i < n - 1 ==> RowId(rows[i]) < RowId(rows[n - 1]);
      assert i >= n ==> RowId(rows[n - 1]) < RowId(rows[i]);
    }
    assert rows == rows[..n] + rows[n..];
  }

  lemma SuffixHoldsExactlyWhen(aim: seq<Row>, rows: seq<Row>, n: nat)
    requires Ascending(aim, RowId) && Ascending(rows, RowId) && n <= |rows| && aim != [] && forall r | r in aim :: r in rows
    ensures (forall r | r in aim :: r in rows[n..]) <==> n == 0 || rows[n - 1].id < aim[0].id
  {
    assert aim[0] in aim;
    if n > 0 {
      CutByKey(rows, n);
      forall k | 0 <= k < |aim|
        ensures aim[0].id <= aim[k].id
      {
        assert RowId(aim[0]) <= RowId(aim[k]);
      }
    } else {
      assert rows[0..] == rows;
    }
  }

  lemma {:induction false} SettledIsPart(rows: seq<Row>, retention: nat, maxRows: int)
    requires Ascending(rows, RowId)
    ensures Ascending(Settled(rows, retention, maxRows), RowId)
    ensures forall r | r in Settled(rows, retention, maxRows) :: r in rows
    decreases |rows|
  {
    hide Pruned, More, Ascending;
    PrunedAscends(rows, retention, maxRows);
    if More(rows, retention, maxRows) {
      MoreRemovesAChunk(rows, retention, maxRows);
      SettledIsPart(Pruned(rows, retention, maxRows), retention, maxRows);
    }
  }

  /** Repeated calls keep the whole aim if and only if none of them reaches into it. */
  lemma {:induction false} AimIsKeptExactlyWhen(aim: seq<Row>, rows: seq<Row>, retention: nat, maxRows: int)
    requires Ascending(rows, RowId) && IsAim(aim, rows, retention)
    ensures (forall r | r in aim :: r in Settled(rows, retention, maxRows)) <==>
            EveryCallSpares(aim, rows, retention, maxRows)
    decreases |rows|
  {
    hide Pruned, More, Ascending, Spares, IsAim, Cutoff;
    SparedExactlyWhen(aim, rows, retention, maxRows);
    PrunedAscends(rows, retention, maxRows);
    if More(rows, retention, maxRows) {
      MoreRemovesAChunk(rows, retention, maxRows);
      var rest := Pruned(rows, retention, maxRows);
      SettledIsPart(rest, retention, maxRows);
      if Spares(aim, rows, retention, maxRows) {
        AimOfRest(aim, rows, rest, retention);
        AimIsKeptExactlyWhen(aim, rest, retention, maxRows);
      }
    }
  }

  lemma AimOfRest(aim: seq<Row>, rows: seq<Row>, rest: seq<Row>, retention: nat)
    requires IsAim(aim, rows, retention)
    requires (forall r | r in aim :: r in rest) && forall r | r in rest :: r in rows
    ensures IsAim(aim, rest, retention)
  {
    hide Cutoff, Ascending;
    if rest != [] {
      assert rest[0] in rows;
      CutoffOfPart(rest, rows, retention);
    }
  }

  /** A part in the same order is no longer than the whole, and as long only if it is the whole. */
  lemma {:induction false} PartInOrder(a: seq<Row>, b: seq<Row>)
    requires Ascending(a, RowId) && Ascending(b, RowId) && forall r | r in a :: r in b
    ensures |a| <= |b| && (|a| == |b| ==> a == b)
    decreases |b|
  {
    if a != [] {
      assert a[0] in b;
      AscendingRest(b);
      var rest := b[1..];
      if a[0] == b[0] {
        AscendingRest(a);
        forall r | r in a[1..]
          ensures r in rest
        {
          assert r in a;
          assert r != b[0];
        }
        PartInOrder(a[1..], rest);
      } else {
        forall r | r in a
          ensures r in rest
        {
          var i :| 0 <= i < |a| && a[i] == r;
          assert RowId(a[0]) <= RowId(r);
          assert a[0] in rest;
          assert r != b[0];
        }
        PartInOrder(a, rest);
      }
    }
  }

  lemma {:induction false} YoungAscends(rows: seq<Row>, cutoff: int)
    requires Ascending(rows, RowId)
    ensures Ascending(Young(rows, cutoff), RowId)
  {
    if rows != [] {
      AscendingRest(rows);
      YoungAscends(rows[1..], cutoff);
      YoungAreYoung(rows[1..], cutoff);
      if rows[0].occurredAt >= cutoff { AscendingJoin(rows[0], Young(rows[1..], cutoff), rows[1..]); }
    }
  }

  lemma IdealIsAim(rows: seq<Row>, retention: nat, maxRows: int)
    requires Ascending(rows, RowId)
    ensures IsAim(Ideal(rows, retention, maxRows), rows, retention)
  {
    IdealIsBounded(rows, retention, maxRows);
    if rows != [] { YoungAscends(rows, Cutoff(rows, retention)); }
    hide Young, Cutoff;
  }

  /** What the last call leaves is the ideal of the table it started from. */
  lemma {:induction false} SettledIsLastIdeal(rows: seq<Row>, retention: nat, maxRows: int) returns (last: seq<Row>)
    requires Ascending(rows, RowId)
    ensures Settled(rows, retention, maxRows) == Ideal(last, retention, maxRows)
    ensures Ascending(last, RowId) && forall r | r in last :: r in rows
    decreases |rows|
  {
    hide Pruned, More, Ascending, Ideal;
    if More(rows, retention, maxRows) {
      MoreRemovesAChunk(rows, retention, maxRows);
      PrunedAscends(rows, retention, maxRows);
      last := SettledIsLastIdeal(Pruned(rows, retention, maxRows), retention, maxRows);
    } else {
      SettledIsIdeal(rows, retention, maxRows);
      last := rows;
    }
  }

  /** Timestamps are 64-bit numbers. */
  predicate TimesFit(rows: seq<Row>) { forall r | r in rows :: r.occurredAt >= I64_MIN }

  /** A table that still holds the whole ideal of a larger one is at its ideal only when that is the same. */
  lemma SameIdeal(rows: seq<Row>, last: seq<Row>, retention: nat, maxRows: int)
    requires Ascending(rows, RowId) && Ascending(last, RowId) && TimesFit(rows) && forall r | r in last :: r in rows
    requires forall r | r in Ideal(rows, retention, maxRows) :: r in Ideal(last, retention, maxRows)
    ensures Ideal(last, retention, maxRows) == Ideal(rows, retention, maxRows)
  {
    hide Ideal, Newest, Cutoff, Ascending;
    var a, b := Ideal(rows, retention, maxRows), Ideal(last, retention, maxRows);
    IdealIsAim(rows, retention, maxRows);
    IdealIsAim(last, retention, maxRows);
    IdealIsBounded(last, retention, maxRows);
    if rows == [] {
      NothingIsIdeal(rows, last, retention, maxRows);
    } else if |a| < Cap(maxRows) {
      RoomyIdealHoldsAll(rows, last, retention, maxRows);
      PartInOrder(b, a);
    }
    PartInOrder(a, b);
  }

  lemma NothingIsIdeal(rows: seq<Row>, last: seq<Row>, retention: nat, maxRows: int)
    requires rows == [] && forall r | r in last :: r in rows
    ensures Ideal(rows, retention, maxRows) == [] && Ideal(last, retention, maxRows) == []
  {
    if last != [] { assert last[0] in last; }
  }

  /** An ideal with room to spare holds the newest row, so a part that holds it has the same window. */
  lemma RoomyIdealHoldsAll(rows: seq<Row>, last: seq<Row>, retention: nat, maxRows: int)
    requires rows != [] && TimesFit(rows) && (forall r | r in last :: r in rows)
    requires |Ideal(rows, retention, maxRows)| < Cap(maxRows)
    requires forall r | r in Ideal(rows, retention, maxRows) :: r in Ideal(last, retention, maxRows)
    ensures forall r | r in Ideal(last, retention, maxRows) :: r in Ideal(rows, retention, maxRows)
  {
    hide Ideal, Cutoff, Newest;
    IdealIsBounded(rows, retention, maxRows);
    IdealIsBounded(last, retention, maxRows);
    NewestIsAttained(rows);
    var i :| 0 <= i < |rows| && rows[i].occurredAt == Newest(rows);
    CutoffBelowNewest(rows, retention);
    assert rows[i] in rows && rows[i] in Ideal(rows, retention, maxRows);
    assert rows[i] in last;
    SameNewest(rows, last, retention, rows[i]);
  }

  lemma CutoffBelowNewest(rows: seq<Row>, retention: nat)
    requires rows != [] && TimesFit(rows)
    ensures Cutoff(rows, retention) <= Newest(rows)
  {
    NewestIsAttained(rows);
    var i :| 0 <= i < |rows| && rows[i].occurredAt == Newest(rows);
    assert rows[i] in rows;
  }

  lemma SameNewest(rows: seq<Row>, last: seq<Row>, retention: nat, r: Row)
    requires rows != [] && r in last && r.occurredAt == Newest(rows) && forall x | x in last :: x in rows
    ensures last != [] && Cutoff(last, retention) == Cutoff(rows, retention)
  {
    NewestIsAttained(last);
    NewestOfPart(last, rows);
    var k :| 0 <= k < |last| && last[k] == r;
    hide Newest;
  }

  /** Pruning to the end leaves exactly what the ring is meant to hold if and only if no call reaches into it. */
  lemma SettlesAtIdealExactlyWhen(rows: seq<Row>, retention: nat, maxRows: int)
    requires Ascending(rows, RowId) && TimesFit(rows)
    ensures Settled(rows, retention, maxRows) == Ideal(rows, retention, maxRows) <==>
            EveryCallSpares(Ideal(rows, retention, maxRows), rows, retention, maxRows)
  {
    hide *;
    IdealIsAim(rows, retention, maxRows);
    AimIsKeptExactlyWhen(Ideal(rows, retention, maxRows), rows, retention, maxRows);
    var last := SettledIsLastIdeal(rows, retention, maxRows);
    if forall r | r in Ideal(rows, retention, maxRows) :: r in Settled(rows, retention, maxRows) {
      SameIdeal(rows, last, retention, maxRows);
    }
  }

  /** In particular when times follow keys or one chunk removes all rows that are too old. */
  lemma {:induction false} EnoughChunksSettle(rows: seq<Row>, retention: nat, maxRows: int)
    requires ChunksAreEnough(rows, retention)
    ensures Settled(rows, retention, maxRows) == Ideal(rows, retention, maxRows)
    decreases |rows|
  {
    hide Pruned, More, ChunksAreEnough, Ideal;
    if More(rows, retention, maxRows) {
      MoreRemovesAChunk(rows, retention, maxRows);
      ChunkKeepsAim(rows, retention, maxRows);
      EnoughChunksSettle(Pruned(rows, retention, maxRows), retention, maxRows);
    } else {
      SettledIsIdeal(rows, retention, maxRows);
    }
  }

  lemma {:induction false} SettledIsBounded(rows: seq<Row>, retention: nat, maxRows: int)
    requires Ascending(rows, RowId)
    ensures var kept := Settled(rows, retention, maxRows);
            && |kept| <= Cap(maxRows)
            && forall r | r in kept :: r.occurredAt >= Newest(kept) - retention
  {
    hide *;
    var last := SettledIsLastIdeal(rows, retention, maxRows);
    IdealIsBounded(last, retention, maxRows);
    SettledIsInWindow(last, retention, maxRows);
  }

  // ---------------------------------------------------------------- which rows the ideal table holds

  /** The row is no older than the window, measured from every stored row. */
  predicate InWindow(all: seq<Row>, r: Row, retention: nat) { forall u | u in all :: r.occurredAt >= u.occurredAt - retention }

  /** How many of these rows are within the window of `all` and have a later key. */
  function NewerInWindow(all: seq<Row>, rows: seq<Row>, retention: nat, id: int): nat {
    if rows == [] then 0
    else
      NewerInWindow(all, rows[1..], retention, id) + if rows[0].id > id && InWindow(all, rows[0], retention) then 1 else 0
  }

  lemma WindowIsCutoff(all: seq<Row>, r: Row, retention: nat)
    requires r in all && r.occurredAt >= I64_MIN
    ensures InWindow(all, r, retention) <==> r.occurredAt >= Cutoff(all, retention)
  {
    NewestIsAttained(all);
    var i :| 0 <= i < |all| && all[i].occurredAt == Newest(all);
    assert all[i] in all;
    hide Newest;
  }

  lemma {:induction false} LaterAreNewer(all: seq<Row>, rows: seq<Row>, retention: nat, id: int)
    requires all != [] && forall r | r in rows :: r in all && r.occurredAt >= I64_MIN && r.id > id
    ensures NewerInWindow(all, rows, retention, id) == |Young(rows, Cutoff(all, retention))|
  {
    if rows != [] {
      WindowIsCutoff(all, rows[0], retention);
      LaterAreNewer(all, rows[1..], retention, id);
      hide InWindow, Cutoff;
    }
  }

  lemma {:induction false} YoungIndex(all: seq<Row>, rows: seq<Row>, retention: nat, r: Row) returns (i: nat)
    requires all != [] && Ascending(rows, RowId) && (forall u | u in rows :: u in all && u.occurredAt >= I64_MIN)
    requires r in rows && r.occurredAt >= Cutoff(all, retention)
    ensures var young := Young(rows, Cutoff(all, retention));
            i < |young| && young[i] == r && NewerInWindow(all, rows, retention, r.id) == |young| - 1 - i
  {
    WindowIsCutoff(all, rows[0], retention);
    hide InWindow, Cutoff;
    var rest := rows[1..];
    if rows[0] == r {
      LaterAreNewer(all, rest, retention, r.id);
      i := 0;
    } else {
      i := YoungIndex(all, rest, retention, r);
      if rows[0].occurredAt >= Cutoff(all, retention) { i := i + 1; }
    }
  }

  /** The ideal table holds a row exactly when it is within the window and the cap has room for it and the later ones there. */
  lemma IdealExactlyWhen(rows: seq<Row>, retention: nat, maxRows: int, r: Row)
    requires Ascending(rows, RowId) && r in rows && forall u | u in rows :: u.occurredAt >= I64_MIN
    ensures r in Ideal(rows, retention, maxRows) <==>
            InWindow(rows, r, retention) && NewerInWindow(rows, rows, retention, r.id) < maxRows
  {
    var cutoff := Cutoff(rows, retention);
    WindowIsCutoff(rows, r, retention);
    YoungAreYoung(rows, cutoff);
    YoungAscends(rows, cutoff);
    var young := Young(rows, cutoff);
    hide Young, Cutoff, InWindow, NewerInWindow;
    if r.occurredAt >= cutoff {
      var i := YoungIndex(rows, rows, retention, r);
      LastHolds(young, Cap(maxRows), i);
    }
  }

  lemma LastHolds(rows: seq<Row>, n: nat, i: nat)
    requires Ascending(rows, RowId) && i < |rows|
    ensures rows[i] in Last(rows, n) <==> |rows| - i <= n
  {
    if |rows| - i <= n && |rows| > n { assert rows[|rows| - n..][i - (|rows| - n)] == rows[i]; }
  }

  // ---------------------------------------------------------------- the ring

  datatype NewRow = NewRow(occurredAt: int, outcome: string, target: string, serials: set<int>, payload: int)

  function Stamp(n: NewRow, id: int): Row { Row(id, n.occurredAt, n.outcome, n.target, n.serials, n.payload) }

  function StampAll(news: seq<NewRow>, id: int): seq<Row> { seq(|news|, i requires 0 <= i < |news| => Stamp(news[i], id + i)) }

  datatype Filter = Filter(since: Option<int>, before: Option<int>, limit: int, outcome: Option<string>,
                           target: Option<string>, serial: Option<int>)

  predicate Matches(f: Filter, r: Row) {
    && (f.since.Some? ==> r.id > f.since.value)
    && (f.outcome.Some? ==> r.outcome == f.outcome.value)
    && (f.target.Some? ==> r.target == f.target.value)
    && (f.serial.Some? ==> f.serial.value in r.serials)
  }

  /** A written row is found by the filters for its own outcome, target and serials. */
  lemma FilterFindsWritten(f: Filter, n: NewRow, id: int)
    ensures Matches(f, Stamp(n, id)) <==>
            && (f.since.None? || f.since.value < id)
            && (f.outcome.None? || f.outcome.value == n.outcome)
            && (f.target.None? || f.target.value == n.target)
            && (f.serial.None? || f.serial.value in n.serials)
  {}

  function ClampLimit(limit: int): nat { if limit < 1 then 1 else if limit > MAX_READ_LIMIT then MAX_READ_LIMIT else limit }

  /** The window in milliseconds, as a 64-bit number. */
  function RetentionMs(millis: nat): nat { if millis > I64_MAX then I64_MAX else millis }

  // ---------------------------------------------------------------- runs and reading sessions

  /** What happens to the ring between two reads. */
  datatype Step = Write(news: seq<NewRow>) | Prune(retentionMillis: nat, maxRows: int)

  function After(s: Snapshot<Row>, step: Step): Snapshot<Row> {
    match step
    case Write(news) => Snapshot(s.rows + StampAll(news, s.next), s.next + |news|)
    case Prune(millis, maxRows) => Snapshot(Pruned(s.rows, RetentionMs(millis), maxRows), s.next)
  }

  const EMPTY: Snapshot<Row> := Snapshot([], 1)

  function Run(steps: seq<Step>): Snapshot<Row> {
    if steps == [] then EMPTY else After(Run(steps[..|steps| - 1]), steps[|steps| - 1])
  }

  ghost predicate IsTable(s: Snapshot<Row>) { Ascending(s.rows, RowId) && forall r | r in s.rows :: r.id < s.next }

  lemma StepEvolves(s: Snapshot<Row>, step: Step)
    requires IsTable(s)
    ensures IsTable(After(s, step)) && Evolves(s, After(s, step), RowId)
  {
    match step
    case Prune(millis, maxRows) =>
      PrunedAscends(s.rows, RetentionMs(millis), maxRows);
      hide Pruned;
    case Write(news) =>
      var all := s.rows + StampAll(news, s.next);
      forall i, j | 0 <= i < j < |all|
        ensures RowId(all[i]) < RowId(all[j])
      {
        if i < |s.rows| { assert s.rows[i] in s.rows; }
      }
  }

  lemma {:induction false} RunEvolves(steps: seq<Step>, i: nat)
    requires i <= |steps|
    ensures IsTable(Run(steps)) && IsTable(Run(steps[..i])) && Evolves(Run(steps[..i]), Run(steps), RowId)
  {
    hide IsTable, After;
    if steps == [] {
      EmptyIsTable();
    } else {
      var n := |steps| - 1;
      var front := steps[..n];
      if i <= n { assert front[..i] == steps[..i]; } else { assert steps[..i] == steps; }
      RunEvolves(front, if i <= n then i else n);
      StepEvolves(Run(front), steps[n]);
      hide Run;
      if i <= n { EvolvesOnward(Run(steps[..i]), Run(front), Run(steps), RowId); }
    }
  }

  lemma EmptyIsTable()
    ensures IsTable(EMPTY)
  {}

  /** The ring at ever later moments of one run. */
  predicate AreMoments(steps: seq<Step>, cuts: seq<nat>) {
    (forall k | 0 <= k < |cuts| :: cuts[k] <= |steps|) && forall j, k | 0 <= j < k < |cuts| :: cuts[j] <= cuts[k]
  }

  function Moments(steps: seq<Step>, cuts: seq<nat>): (h: seq<Snapshot<Row>>)
    requires AreMoments(steps, cuts)
    ensures |h| == |cuts|
  {
    seq(|cuts|, k requires 0 <= k < |cuts| => Run(steps[..cuts[k]]))
  }

  lemma MomentsAreHistory(steps: seq<Step>, cuts: seq<nat>)
    requires AreMoments(steps, cuts)
    ensures IsHistory(Moments(steps, cuts), RowId)
  {
    var h := Moments(steps, cuts);
    forall k | 0 <= k < |h|
      ensures IsTable(h[k])
    {
      RunEvolves(steps[..cuts[k]], 0);
    }
    forall k, n | 0 <= k && n == k + 1 < |h|
      ensures Evolves(h[k], h[n], RowId)
    {
      assert steps[..cuts[n]][..cuts[k]] == steps[..cuts[k]];
      RunEvolves(steps[..cuts[n]], cuts[k]);
    }
    hide Run, Evolves, Ascending, Moments;
    StepsMakeHistory(h, RowId);
  }

  function ReadPage(rows: seq<Row>, f: Filter): seq<Row> {
    Page(rows, RowId, r => Matches(f, r), f.before, ClampLimit(f.limit))
  }

  /** The newest matching rows below the cursor, newest first; only a full page of 1 to 1000 rows leaves any out. */
  lemma PageIsNewest(rows: seq<Row>, f: Filter, keep: Row -> bool)
    requires Ascending(rows, RowId) && forall r :: keep(r) == Matches(f, r)
    ensures IsPage(ReadPage(rows, f), rows, RowId, keep, f.before,
                   if f.limit <= 0 then 1 else if f.limit >= 1000 then 1000 else f.limit)
  {
    SamePage(rows, r => Matches(f, r), keep, f.before, ClampLimit(f.limit));
    PageFacts(rows, RowId, keep, f.before, ClampLimit(f.limit));
  }

  /** What a client reads that asks for page after page while the ring goes on changing. */
  function ReadSession(h: seq<Snapshot<Row>>, f: Filter): seq<Row> {
    if h == [] then []
    else
      var page := ReadPage(h[0].rows, f);
      page + ReadSession(h[1..], f.(before := Cursor(page, RowId, f.before)))
  }

  /** The filter with which the client goes on after these pages. */
  function FilterAfter(h: seq<Snapshot<Row>>, f: Filter): Filter {
    if h == [] then f else FilterAfter(h[1..], f.(before := Cursor(ReadPage(h[0].rows, f), RowId, f.before)))
  }

  predicate GetsShortPage(h: seq<Snapshot<Row>>, f: Filter) {
    h != [] &&
    var page := ReadPage(h[0].rows, f);
    |page| < ClampLimit(f.limit) || GetsShortPage(h[1..], f.(before := Cursor(page, RowId, f.before)))
  }

  lemma {:induction false} SamePage(rows: seq<Row>, a: Row -> bool, b: Row -> bool, before: Option<int>, limit: nat)
    requires forall r :: a(r) == b(r)
    ensures Page(rows, RowId, a, before, limit) == Page(rows, RowId, b, before, limit)
    decreases |rows|
  {
    if rows != [] && limit > 0 {
      var front := rows[..|rows| - 1];
      SamePage(front, a, b, before, limit - 1);
      SamePage(front, a, b, before, limit);
    }
  }

  lemma {:induction false} SessionPages(h: seq<Snapshot<Row>>, f: Filter, keep: Row -> bool)
    requires forall r :: keep(r) == Matches(f, r)
    ensures ReadSession(h, f) == ReadAll(h, RowId, keep, f.before, ClampLimit(f.limit))
    ensures FilterAfter(h, f) == f.(before := FinalCursor(h, RowId, keep, f.before, ClampLimit(f.limit)))
    ensures GetsShortPage(h, f) <==> MeetsShortPage(h, RowId, keep, f.before, ClampLimit(f.limit))
  {
    if h == [] {
      assert f == f.(before := f.before);
    } else {
      SamePage(h[0].rows, r => Matches(f, r), keep, f.before, ClampLimit(f.limit));
      var next := f.(before := Cursor(ReadPage(h[0].rows, f), RowId, f.before));
      assert forall r :: Matches(f, r) == Matches(next, r);
      hide Page, Matches;
      SessionPages(h[1..], next, keep);
    }
  }

  /** Whatever is written and pruned between the reads, the pages never repeat a row and never go back up. */
  lemma SessionDescends(steps: seq<Step>, cuts: seq<nat>, f: Filter)
    requires AreMoments(steps, cuts)
    ensures var read := ReadSession(Moments(steps, cuts), f);
            Descending(read, RowId) && forall r | r in read :: Matches(f, r) && Below(f.before, r.id)
  {
    var h, keep := Moments(steps, cuts), r => Matches(f, r);
    MomentsAreHistory(steps, cuts);
    SessionPages(h, f, keep);
    hide Moments, ReadSession, Matches, IsHistory;
    PagesDescend(h, RowId, keep, f.before, ClampLimit(f.limit));
  }

  lemma MomentsEnds(steps: seq<Step>, cuts: seq<nat>)
    requires AreMoments(steps, cuts) && cuts != []
    ensures var h := Moments(steps, cuts);
            h != [] && h[0] == Run(steps[..cuts[0]]) && h[|h| - 1] == Run(steps[..cuts[|cuts| - 1]])
  {
    hide Run;
  }

  /**
   A matching row that the ring holds at the first read and at the last has been read if and only
   if the cursor has passed it, and a short page means that the cursor has passed all of them.
   */
  lemma KeptIsReadExactlyWhen(steps: seq<Step>, cuts: seq<nat>, f: Filter, r: Row)
    requires AreMoments(steps, cuts) && cuts != [] && Matches(f, r) && Below(f.before, r.id)
    requires r in Run(steps[..cuts[0]]).rows && r in Run(steps[..cuts[|cuts| - 1]]).rows
    ensures var h := Moments(steps, cuts);
            && (r in ReadSession(h, f) <==> !Below(FilterAfter(h, f).before, r.id))
            && (GetsShortPage(h, f) ==> r in ReadSession(h, f))
  {
    var h, keep := Moments(steps, cuts), r => Matches(f, r);
    MomentsEnds(steps, cuts);
    hide Run, IsHistory, ReadSession, FilterAfter, GetsShortPage, Below, Moments, AreMoments;
    MomentsAreHistory(steps, cuts);
    SessionPages(h, f, keep);
    hide Matches, ClampLimit;
    PagesAreComplete(h, RowId, keep, f.before, ClampLimit(f.limit), r);
  }

  class Ring {
    var rows: seq<Row>
    var nextId: int

    ghost predicate Valid()
      reads this
    {
      IsTable(Now())
    }

    function Now(): Snapshot<Row>
      reads this
    {
      Snapshot(rows, nextId)
    }

    constructor ()
      ensures Valid() && Now() == EMPTY
    {
      rows, nextId := [], 1;
    }

    method Write(news: seq<NewRow>)
      requires Valid()
      modifies this
      ensures Valid() && Now() == After(old(Now()), Step.Write(news))
    {
      StepEvolves(Now(), Step.Write(news));
      hide IsTable, Pruned;
      var i := 0;
      while i < |news|
        invariant 0 <= i <= |news| && nextId == old(nextId) + i
        invariant rows == old(rows) + StampAll(news, old(nextId))[..i]
      {
        assert StampAll(news, old(nextId))[..i + 1] == StampAll(news, old(nextId))[..i] + [Stamp(news[i], nextId)];
        rows := rows + [Stamp(news[i], nextId)];
        nextId := nextId + 1;
        i := i + 1;
      }
    }

    /** Deletes a chunk of the rows up to the one that the row cap rules out first. */
    method PruneByCount(maxRows: int) returns (full: bool)
      requires Valid()
      modifies this`rows
      ensures var excess := if |old(rows)| > Cap(maxRows) then |old(rows)| - Cap(maxRows) else 0;
              rows == old(rows)[Min(excess, PRUNE_CHUNK)..] && full == (excess >= PRUNE_CHUNK)
    {
      hide DropUpTo;
      full := false;
      var offset := if maxRows > 0 then maxRows else 0;
      if offset < |rows| {
        var watermark := rows[|rows| - 1 - offset].id;
        DropUpToIsPrefix(rows, |rows| - 1 - offset, PRUNE_CHUNK);
        var count := |rows|;
        rows := DropUpTo(rows, watermark, PRUNE_CHUNK);
        full := count - |rows| >= PRUNE_CHUNK;
      }
    }

    /** One call: at most two chunks are deleted; reports whether more may remain. */
    method Prune(retentionMillis: nat, maxRows: int) returns (more: bool)
      requires Valid()
      modifies this`rows
      ensures Valid() && Now() == After(old(Now()), Step.Prune(retentionMillis, maxRows))
      ensures more == More(old(rows), RetentionMs(retentionMillis), maxRows)
    {
      hide DropAged, Aged, Newest, Cutoff, Ascending;
      var retention := RetentionMs(retentionMillis);
      PrunedAscends(rows, retention, maxRows);
      if rows == [] { return false; }
      var cutoff := Cutoff(rows, retention);
      var count := |rows|;
      DropAgedAscends(rows, cutoff, PRUNE_CHUNK);
      rows := DropAged(rows, cutoff, PRUNE_CHUNK);
      more := count - |rows| >= PRUNE_CHUNK;
      var full := PruneByCount(maxRows);
      more := more || full;
    }

    /** Prunes until nothing more is reported. */
    method PruneAll(retentionMillis: nat, maxRows: int)
      requires Valid()
      modifies this`rows
      ensures Valid() && Evolves(old(Now()), Now(), RowId)
      ensures rows == Settled(old(rows), RetentionMs(retentionMillis), maxRows)
      ensures |rows| <= Cap(maxRows)
      ensures forall r | r in rows :: r.occurredAt >= Newest(rows) - RetentionMs(retentionMillis)
    {
      hide Pruned, More, Newest, Ascending;
      var retention := RetentionMs(retentionMillis);
      var more := true;
      while more
        invariant Valid() && Evolves(old(Now()), Now(), RowId)
        invariant Settled(old(rows), retention, maxRows) == if more then Settled(rows, retention, maxRows) else rows
        decreases more, |rows|
      {
        ghost var before := rows;
        StepEvolves(Now(), Step.Prune(retentionMillis, maxRows));
        EvolvesOnward(old(Now()), Now(), After(Now(), Step.Prune(retentionMillis, maxRows)), RowId);
        more := Prune(retentionMillis, maxRows);
        if more { MoreRemovesAChunk(before, retention, maxRows); }
      }
      SettledIsBounded(old(rows), retention, maxRows);
    }

    method Read(filter: Filter) returns (page: seq<Row>)
      ensures page == ReadPage(rows, filter)
    {
      page := Page(rows, RowId, r => Matches(filter, r), filter.before, ClampLimit(filter.limit));
    }
  }

  lemma SettledIsInWindow(rows: seq<Row>, retention: nat, maxRows: int)
    ensures forall r | r in Ideal(rows, retention, maxRows) ::
              r.occurredAt >= Newest(Ideal(rows, retention, maxRows)) - retention
  {
    IdealIsBounded(rows, retention, maxRows);
    var kept := Ideal(rows, retention, maxRows);
    if kept != [] {
      NewestIsAttained(kept);
      NewestIsAttained(rows);
      var k :| 0 <= k < |kept| && kept[k].occurredAt == Newest(kept);
      assert kept[k] in rows;
      var i :| 0 <= i < |rows| && rows[i] == kept[k];
      hide Ideal, Newest;
    }
  }
}
