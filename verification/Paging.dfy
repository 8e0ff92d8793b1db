/**
 Reading a ring backwards in pages, newest record first, while records are appended to it and
 evicted from it between the pages.
 */
module Paging {
  import opened Wrappers

  predicate Ascending<R>(rows: seq<R>, key: R -> int) {
    forall i, j | 0 <= i < j < |rows| :: key(rows[i]) < key(rows[j])
  }

  predicate Descending<R>(rows: seq<R>, key: R -> int) {
    forall i, j | 0 <= i < j < |rows| :: key(rows[i]) > key(rows[j])
  }

  predicate Below(before: Option<int>, key: int) { before.None? || key < before.value }

  /** The newest `limit` records that match and lie below the cursor, newest first. */
  function Page<R>(rows: seq<R>, key: R -> int, matches: R -> bool, before: Option<int>, limit: nat): seq<R>
    decreases |rows|
  {
    if rows == [] || limit == 0 then []
    else
      var front, r := rows[..|rows| - 1], rows[|rows| - 1];
      if matches(r) && Below(before, key(r)) then [r] + Page(front, key, matches, before, limit - 1)
      else Page(front, key, matches, before, limit)
  }

  /** The cursor for the next page. */
  function Cursor<R>(page: seq<R>, key: R -> int, before: Option<int>): Option<int> {
    if page == [] then before else Some(key(page[|page| - 1]))
  }

  /** Only matching records below the cursor, descending; what it leaves out lies below a full page. */
  ghost predicate IsPage<R(!new)>(page: seq<R>, rows: seq<R>, key: R -> int, matches: R -> bool, before: Option<int>,
                                  limit: nat)
  {
    && Descending(page, key)
    && |page| <= limit
    && (forall r | r in page :: r in rows && matches(r) && Below(before, key(r)))
    && (forall r | r in rows && matches(r) && Below(before, key(r)) && r !in page ::
          |page| == limit && (page != [] ==> key(r) < key(page[|page| - 1])))
  }

  lemma TakeNewest<R(!new)>(page: seq<R>, front: seq<R>, last: R, key: R -> int, matches: R -> bool,
                            before: Option<int>, limit: nat)
    requires IsPage(page, front, key, matches, before, limit)
    requires matches(last) && Below(before, key(last)) && forall r | r in front :: key(r) < key(last)
    ensures IsPage([last] + page, front + [last], key, matches, before, limit + 1)
  {
    var more, rows := [last] + page, front + [last];
    assert forall i | 1 <= i < |more| :: more[i] == page[i - 1] && page[i - 1] in page;
    assert page != [] ==> more[|more| - 1] == page[|page| - 1];
    forall r | r in rows && matches(r) && Below(before, key(r)) && r !in more
      ensures |more| == limit + 1 && key(r) < key(more[|more| - 1])
    {
      assert last in more && (r in page ==> r in more);
      assert r in front;
    }
  }

  lemma SkipNewest<R(!new)>(page: seq<R>, front: seq<R>, last: R, key: R -> int, matches: R -> bool,
                            before: Option<int>, limit: nat)
    requires IsPage(page, front, key, matches, before, limit)
    requires !(matches(last) && Below(before, key(last)))
    ensures IsPage(page, front + [last], key, matches, before, limit)
  {
    hide Descending;
    assert forall r | r in front + [last] :: r in front || r == last;
  }

  lemma AscendingFront<R(!new)>(rows: seq<R>, key: R -> int)
    requires Ascending(rows, key) && rows != []
    ensures Ascending(rows[..|rows| - 1], key)
    ensures forall r | r in rows[..|rows| - 1] :: key(r) < key(rows[|rows| - 1])
  {}

  lemma PageStep<R(!new)>(rows: seq<R>, key: R -> int, matches: R -> bool, before: Option<int>, limit: nat)
    requires rows != [] && limit > 0
    ensures var front, r := rows[..|rows| - 1], rows[|rows| - 1];
            Page(rows, key, matches, before, limit) ==
            if matches(r) && Below(before, key(r)) then [r] + Page(front, key, matches, before, limit - 1)
            else Page(front, key, matches, before, limit)
  {}

  lemma {:induction false} PageFacts<R(!new)>(rows: seq<R>, key: R -> int, matches: R -> bool, before: Option<int>,
                                              limit: nat)
    requires Ascending(rows, key)
    ensures IsPage(Page(rows, key, matches, before, limit), rows, key, matches, before, limit)
    decreases |rows|
  {
    if rows == [] || limit == 0 {
      assert Page(rows, key, matches, before, limit) == [];
    } else {
      PageStep(rows, key, matches, before, limit);
      hide IsPage, Ascending, Page, Below;
      var front, last := rows[..|rows| - 1], rows[|rows| - 1];
      assert rows == front + [last];
      AscendingFront(rows, key);
      if matches(last) && Below(before, key(last)) {
        PageFacts(front, key, matches, before, limit - 1);
        TakeNewest(Page(front, key, matches, before, limit - 1), front, last, key, matches, before, limit - 1);
      } else {
        PageFacts(front, key, matches, before, limit);
        SkipNewest(Page(front, key, matches, before, limit), front, last, key, matches, before, limit);
      }
    }
  }

  /** A ring at one moment: its records, and a key above every record issued so far. */
  datatype Snapshot<R> = Snapshot(rows: seq<R>, next: int)

  /** A ring to which records with new keys were appended and from which any others were removed. */
  ghost predicate Evolves<R(!new)>(a: Snapshot<R>, b: Snapshot<R>, key: R -> int) {
    a.next <= b.next && forall r | r in b.rows :: r in a.rows || key(r) >= a.next
  }

  ghost predicate IsHistory<R(!new)>(h: seq<Snapshot<R>>, key: R -> int) {
    && (forall k | 0 <= k < |h| :: Ascending(h[k].rows, key))
    && (forall k, r | 0 <= k < |h| && r in h[k].rows :: key(r) < h[k].next)
    && (forall j, k | 0 <= j < k < |h| :: Evolves(h[j], h[k], key))
  }

  /** A ring that evolves from each moment to the next has evolved between any two. */
  lemma {:induction false} StepsMakeHistory<R(!new)>(h: seq<Snapshot<R>>, key: R -> int)
    requires forall k | 0 <= k < |h| :: Ascending(h[k].rows, key)
    requires forall k, r | 0 <= k < |h| && r in h[k].rows :: key(r) < h[k].next
    requires forall k, n | 0 <= k && n == k + 1 < |h| :: Evolves(h[k], h[n], key)
    ensures IsHistory(h, key)
  {
    hide Ascending, Evolves;
    if |h| > 1 {
      var front, n := h[..|h| - 1], |h| - 1;
      StepsMakeHistory(front, key);
      assert Evolves(h[n - 1], h[n], key);
      forall j | 0 <= j < n
        ensures Evolves(h[j], h[n], key)
      {
        if j < n - 1 {
          assert Evolves(front[j], front[n - 1], key);
          EvolvesOnward(h[j], h[n - 1], h[n], key);
        }
      }
      assert forall j, k | 0 <= j < k < n :: Evolves(front[j], front[k], key);
    }
  }

  lemma EvolvesOnward<R(!new)>(a: Snapshot<R>, b: Snapshot<R>, c: Snapshot<R>, key: R -> int)
    requires Evolves(a, b, key) && Evolves(b, c, key)
    ensures Evolves(a, c, key)
  {}

  /** One page from every moment, each continuing from the last cursor. */
  function ReadAll<R>(h: seq<Snapshot<R>>, key: R -> int, matches: R -> bool, before: Option<int>, limit: nat): seq<R> {
    if h == [] then []
    else
      var page := Page(h[0].rows, key, matches, before, limit);
      page + ReadAll(h[1..], key, matches, Cursor(page, key, before), limit)
  }

  /** The cursor after the last page of the run. */
  function FinalCursor<R>(h: seq<Snapshot<R>>, key: R -> int, matches: R -> bool, before: Option<int>, limit: nat)
    : Option<int>
  {
    if h == [] then before
    else FinalCursor(h[1..], key, matches, Cursor(Page(h[0].rows, key, matches, before, limit), key, before), limit)
  }

  /** Some page of the run comes back short. */
  predicate MeetsShortPage<R>(h: seq<Snapshot<R>>, key: R -> int, matches: R -> bool, before: Option<int>, limit: nat) {
    h != [] &&
    var page := Page(h[0].rows, key, matches, before, limit);
    |page| < limit || MeetsShortPage(h[1..], key, matches, Cursor(page, key, before), limit)
  }

  lemma HistoryTail<R(!new)>(h: seq<Snapshot<R>>, key: R -> int)
    requires IsHistory(h, key) && h != []
    ensures IsHistory(h[1..], key)
  {
    hide Evolves, Ascending;
  }

  /** Whatever happens between the pages, they never repeat a record and never go back up. */
  lemma {:induction false} PagesDescend<R(!new)>(h: seq<Snapshot<R>>, key: R -> int, matches: R -> bool,
                                                 before: Option<int>, limit: nat)
    requires IsHistory(h, key)
    ensures Descending(ReadAll(h, key, matches, before, limit), key)
    ensures forall r | r in ReadAll(h, key, matches, before, limit) :: matches(r) && Below(before, key(r))
  {
    if h != [] {
      var page := Page(h[0].rows, key, matches, before, limit);
      var cursor := Cursor(page, key, before);
      HistoryTail(h, key);
      PageFacts(h[0].rows, key, matches, before, limit);
      PagesDescend(h[1..], key, matches, cursor, limit);
      hide IsHistory, Page, ReadAll, Ascending;
      DescendingJoin(page, ReadAll(h[1..], key, matches, cursor, limit), key, before);
    }
  }

  lemma DescendingJoin<R(!new)>(page: seq<R>, rest: seq<R>, key: R -> int, before: Option<int>)
    requires Descending(page, key) && Descending(rest, key)
    requires forall r | r in page :: Below(before, key(r))
    requires forall r | r in rest :: Below(Cursor(page, key, before), key(r))
    ensures Descending(page + rest, key)
    ensures forall r | r in page + rest :: Below(before, key(r))
  {
    if page != [] {
      var low := page[|page| - 1];
      assert low in page;
      forall i, j | 0 <= i < j < |page + rest|
        ensures key((page + rest)[i]) > key((page + rest)[j])
      {
        if i < |page| <= j {
          assert rest[j - |page|] in rest;
          assert key(page[i]) >= key(low);
        }
      }
    } else {
      assert page + rest == rest;
    }
  }

  /**
   A matching record of the first moment that is kept to the last has been read if and only if
   the cursor has passed it, and a short page means that the cursor has passed every such record.
   */
  lemma {:induction false} PagesAreComplete<R(!new)>(h: seq<Snapshot<R>>, key: R -> int, matches: R -> bool,
                                                     before: Option<int>, limit: nat, r: R)
    requires IsHistory(h, key) && h != [] && limit > 0
    requires r in h[0].rows && r in h[|h| - 1].rows && matches(r) && Below(before, key(r))
    ensures r in ReadAll(h, key, matches, before, limit) <==>
            !Below(FinalCursor(h, key, matches, before, limit), key(r))
    ensures MeetsShortPage(h, key, matches, before, limit) ==> r in ReadAll(h, key, matches, before, limit)
  {
    var page, tail := Page(h[0].rows, key, matches, before, limit), h[1..];
    var cursor := Cursor(page, key, before);
    PageFacts(h[0].rows, key, matches, before, limit);
    HistoryTail(h, key);
    RunSplits(h, key, matches, before, limit);
    PageReadsOrPasses(page, h[0].rows, key, matches, before, limit, r);
    hide Page, ReadAll, FinalCursor, MeetsShortPage, IsHistory, IsPage, Below, Cursor;
    if r in page {
      CursorFalls(tail, key, matches, cursor, limit, r);
    } else if tail != [] {
      assert tail[|tail| - 1] == h[|h| - 1];
      KeptThroughout(h, key, r);
      PagesAreComplete(tail, key, matches, cursor, limit, r);
    } else {
      RunEnds(tail, key, matches, cursor, limit);
    }
  }

  lemma PageReadsOrPasses<R(!new)>(page: seq<R>, rows: seq<R>, key: R -> int, matches: R -> bool, before: Option<int>,
                                   limit: nat, r: R)
    requires IsPage(page, rows, key, matches, before, limit) && limit > 0
    requires r in rows && matches(r) && Below(before, key(r))
    ensures r in page <==> !Below(Cursor(page, key, before), key(r))
    ensures |page| < limit ==> r in page
  {
    if r in page {
      var i :| 0 <= i < |page| && page[i] == r;
      assert key(page[i]) >= key(page[|page| - 1]);
    }
  }

  /** The cursor never goes back up over a record it has passed. */
  lemma {:induction false} CursorFalls<R(!new)>(h: seq<Snapshot<R>>, key: R -> int, matches: R -> bool,
                                                before: Option<int>, limit: nat, r: R)
    requires IsHistory(h, key) && !Below(before, key(r))
    ensures !Below(FinalCursor(h, key, matches, before, limit), key(r))
  {
    if h != [] {
      var page := Page(h[0].rows, key, matches, before, limit);
      PageFacts(h[0].rows, key, matches, before, limit);
      HistoryTail(h, key);
      assert page != [] ==> page[|page| - 1] in page;
      hide Page, IsHistory;
      CursorFalls(h[1..], key, matches, Cursor(page, key, before), limit, r);
    }
  }

  lemma KeptThroughout<R(!new)>(h: seq<Snapshot<R>>, key: R -> int, r: R)
    requires IsHistory(h, key) && |h| > 1 && r in h[0].rows && r in h[|h| - 1].rows
    ensures r in h[1].rows
  {
    hide Ascending;
    assert Evolves(h[0], h[1], key);
    if |h| > 2 { assert Evolves(h[1], h[|h| - 1], key); }
  }

  lemma RunEnds<R(!new)>(h: seq<Snapshot<R>>, key: R -> int, matches: R -> bool, before: Option<int>, limit: nat)
    requires h == []
    ensures ReadAll(h, key, matches, before, limit) == []
    ensures FinalCursor(h, key, matches, before, limit) == before
    ensures !MeetsShortPage(h, key, matches, before, limit)
  {}

  lemma RunSplits<R(!new)>(h: seq<Snapshot<R>>, key: R -> int, matches: R -> bool, before: Option<int>, limit: nat)
    requires h != []
    ensures var page := Page(h[0].rows, key, matches, before, limit);
            var cursor := Cursor(page, key, before);
            && ReadAll(h, key, matches, before, limit) == page + ReadAll(h[1..], key, matches, cursor, limit)
            && FinalCursor(h, key, matches, before, limit) == FinalCursor(h[1..], key, matches, cursor, limit)
            && (MeetsShortPage(h, key, matches, before, limit) <==>
                |page| < limit || MeetsShortPage(h[1..], key, matches, cursor, limit))
  {}
}
