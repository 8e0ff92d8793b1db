/**
 The bounded hand-off between the sites that record transmissions and the task that writes them,
 under any interleaving of pushes and drains, and the writer's loop until shutdown.
 */
module WriteQueue {

  const MAX_BATCH: nat := 500

  /** The queue, and the whole history of what was pushed into it and drained from it. */
  datatype State<T> = State(pending: seq<T>, dropped: nat, pushed: seq<T>, drained: seq<T>)

  datatype Event<T> = Push(record: T) | Drain

  function Next<T>(s: State<T>, capacity: nat, e: Event<T>): State<T>
    requires capacity > 0
  {
    match e
    case Push(r) =>
      var excess := if |s.pending| >= capacity then |s.pending| - capacity + 1 else 0;
      State(s.pending[excess..] + [r], s.dropped + excess, s.pushed + [r], s.drained)
    case Drain =>
      var take := if |s.pending| < MAX_BATCH then |s.pending| else MAX_BATCH;
      State(s.pending[take..], s.dropped, s.pushed, s.drained + s.pending[..take])
  }

  function Empty<T>(): State<T> { State([], 0, [], []) }

  function Run<T>(capacity: nat, events: seq<Event<T>>): State<T>
    requires capacity > 0
  {
    if events == [] then Empty()
    else Next(Run(capacity, events[..|events| - 1]), capacity, events[|events| - 1])
  }

  /** Positions in `pushed`, in order, of the records that were drained. */
  predicate Picks<T(==)>(s: State<T>, picks: seq<nat>) {
    && |picks| == |s.drained|
    && |s.pending| <= |s.pushed|
    && (forall i | 0 <= i < |picks| :: picks[i] < |s.pushed| - |s.pending| && s.pushed[picks[i]] == s.drained[i])
    && (forall i, j | 0 <= i < j < |picks| :: picks[i] < picks[j])
  }

  /** What every interleaving keeps. */
  ghost predicate Valid<T(!new)>(s: State<T>, capacity: nat) {
    && |s.pending| <= capacity
    && |s.pushed| == |s.drained| + |s.pending| + s.dropped
    && |s.pending| <= |s.pushed|
    && s.pending == s.pushed[|s.pushed| - |s.pending|..]
    && exists picks :: Picks(s, picks)
  }

  lemma PushKeepsValid<T(!new)>(s: State<T>, capacity: nat, r: T)
    requires capacity > 0 && Valid(s, capacity)
    ensures Valid(Next(s, capacity, Push(r)), capacity)
  {
    var t := Next(s, capacity, Push(r));
    var picks :| Picks(s, picks);
    assert Picks(t, picks);
    assert t.pending == t.pushed[|t.pushed| - |t.pending|..];
  }

  lemma DrainKeepsValid<T(!new)>(s: State<T>, capacity: nat)
    requires capacity > 0 && Valid(s, capacity)
    ensures Valid(Next(s, capacity, Drain), capacity)
  {
    var t := Next(s, capacity, Drain);
    var picks :| Picks(s, picks);
    var take, start := |s.pending| - |t.pending|, |s.pushed| - |s.pending|;
    var more := picks + seq(take, i requires 0 <= i < take => start + i);
    forall i | 0 <= i < |more|
      ensures more[i] < |t.pushed| - |t.pending| && t.pushed[more[i]] == t.drained[i]
    {
      if i >= |picks| { assert t.drained[i] == s.pending[i - |picks|]; }
    }
    assert Picks(t, more);
    assert t.pending == t.pushed[|t.pushed| - |t.pending|..];
  }

  /**
   Nothing is invented, duplicated or reordered: what was drained is an ordered selection of what
   was pushed, what is pending are its newest records, and every record missing from both was counted.
   */
  lemma {:induction false} NothingIsLostUncounted<T(!new)>(capacity: nat, events: seq<Event<T>>)
    requires capacity > 0
    ensures Valid(Run(capacity, events), capacity)
  {
    hide Valid, Next;
    if events == [] {
      EmptyIsValid<T>(capacity);
    } else {
      var s := Run(capacity, events[..|events| - 1]);
      NothingIsLostUncounted(capacity, events[..|events| - 1]);
      match events[|events| - 1]
      case Push(r) => PushKeepsValid(s, capacity, r);
      case Drain => DrainKeepsValid(s, capacity);
    }
  }

  lemma EmptyIsValid<T(!new)>(capacity: nat)
    ensures Valid(Empty<T>(), capacity)
  {
    assert Picks(Empty<T>(), []);
  }

  /** A push drops a record only when the queue is full, and then the oldest one alone; a drain drops none. */
  lemma DropsOnlyWhenFull<T(!new)>(s: State<T>, capacity: nat, e: Event<T>)
    requires capacity > 0 && Valid(s, capacity)
    ensures var t := Next(s, capacity, e);
            && (e.Drain? || |s.pending| < capacity ==> t.dropped == s.dropped)
            && (e.Push? && |s.pending| < capacity ==> t.pending == s.pending + [e.record])
            && (e.Push? && |s.pending| == capacity ==>
                  t.dropped == s.dropped + 1 && t.pending == s.pending[1..] + [e.record])
            && (e.Drain? ==> t.drained + t.pending == s.drained + s.pending && |t.drained| - |s.drained| <= 500
                             && (t.pending != [] ==> |t.drained| - |s.drained| == 500))
  {
    if e.Drain? {
      DrainMoves(s, capacity);
      hide Next, Valid;
    } else {
      assert |s.pending| == capacity ==> Next(s, capacity, e).pending == s.pending[1..] + [e.record];
      hide Next, Picks;
    }
  }

  lemma DrainMoves<T>(s: State<T>, capacity: nat)
    requires capacity > 0
    ensures var t := Next(s, capacity, Drain);
            && t.dropped == s.dropped && t.drained + t.pending == s.drained + s.pending && |t.drained| - |s.drained| <= 500
            && (t.pending != [] ==> |t.drained| - |s.drained| == 500)
  {
    var take := if |s.pending| < MAX_BATCH then |s.pending| else MAX_BATCH;
    assert s.pending == s.pending[..take] + s.pending[take..];
  }

  /** As long as nothing was dropped, the drained batches and the queue are everything pushed, in order. */
  lemma NoDropMeansNoLoss<T(!new)>(s: State<T>, capacity: nat)
    requires Valid(s, capacity)
    ensures s.dropped == 0 <==> s.drained + s.pending == s.pushed
  {
    assert |s.drained + s.pending| == |s.pushed| - s.dropped;
    if s.dropped == 0 {
      var picks :| Picks(s, picks);
      PicksAll(picks, |s.drained|);
      assert forall i | 0 <= i < |s.drained| :: s.pushed[picks[i]] == s.drained[i];
    }
  }

  lemma {:induction false} PicksAll(picks: seq<nat>, n: nat)
    requires |picks| == n && (forall i | 0 <= i < n :: picks[i] < n)
    requires forall i, j | 0 <= i < j < n :: picks[i] < picks[j]
    ensures forall i | 0 <= i < n :: picks[i] == i
  {
    PicksAtLeast(picks, n);
    if n > 0 { PicksFromTop(picks, n, 0); }
  }

  lemma {:induction false} PicksAtLeast(picks: seq<nat>, n: nat)
    requires n <= |picks| && forall i, j | 0 <= i < j < n :: picks[i] < picks[j]
    ensures forall i | 0 <= i < n :: picks[i] >= i
  {
    if n > 0 {
      PicksAtLeast(picks, n - 1);
      assert n > 1 ==> picks[n - 1] > picks[n - 2];
    }
  }

  lemma {:induction false} PicksFromTop(picks: seq<nat>, n: nat, k: nat)
    requires k < n <= |picks| && (forall i | 0 <= i < n :: picks[i] < n)
    requires forall i, j | 0 <= i < j < n :: picks[i] < picks[j]
    ensures forall i | k <= i < n :: picks[i] <= i
    decreases n - k
  {
    if k + 1 < n {
      PicksFromTop(picks, n, k + 1);
      assert picks[k] < picks[k + 1];
    }
  }

  // ---------------------------------------------------------------- the queue

  class Queue<T(!new)> {
    var pending: seq<T>
    var dropped: nat
    const capacity: nat
    ghost var pushed: seq<T>
    ghost var drained: seq<T>

    ghost function Now(): State<T>
      reads this
    {
      State(pending, dropped, pushed, drained)
    }

    constructor (capacity: nat)
      ensures Now() == Empty() && this.capacity == (if capacity > 1 then capacity else 1)
    {
      pending, dropped, pushed, drained := [], 0, [], [];
      this.capacity := if capacity > 1 then capacity else 1;
    }

    method Push(record: T)
      requires capacity > 0
      modifies this
      ensures Now() == Next(old(Now()), capacity, Event.Push(record))
    {
      while |pending| >= capacity
        invariant |pending| <= |old(pending)| && pending == old(pending)[|old(pending)| - |pending|..]
        invariant dropped == old(dropped) + |old(pending)| - |pending|
        invariant pending == old(pending) || |pending| >= capacity - 1
        invariant pushed == old(pushed) && drained == old(drained)
        decreases |pending|
      {
        pending := pending[1..];
        dropped := dropped + 1;
      }
      ghost var excess := if |old(pending)| >= capacity then |old(pending)| - capacity + 1 else 0;
      assert |old(pending)| - |pending| == excess && pending == old(pending)[excess..];
      pending := pending + [record];
      pushed := pushed + [record];
    }

    method Drain() returns (batch: seq<T>)
      requires capacity > 0
      modifies this
      ensures Now() == Next(old(Now()), capacity, Event.Drain)
      ensures drained == old(drained) + batch && |batch| <= MAX_BATCH && (batch == [] <==> old(pending) == [])
    {
      var take := if |pending| < MAX_BATCH then |pending| else MAX_BATCH;
      batch := pending[..take];
      pending := pending[take..];
      drained := drained + batch;
    }
  }

  // ---------------------------------------------------------------- the writer

  /** What the other tasks do before one step of the writer, and how its pruning goes. */
  datatype Moment<T> = Moment(arrivals: seq<T>, stopped: bool, moreToPrune: bool)

  function Concat<T>(batches: seq<seq<T>>): seq<T> {
    if batches == [] then [] else Concat(batches[..|batches| - 1]) + batches[|batches| - 1]
  }

  function Arrivals<T>(moments: seq<Moment<T>>): seq<T> {
    if moments == [] then [] else Arrivals(moments[..|moments| - 1]) + moments[|moments| - 1].arrivals
  }

  class DiagnosticsWriter<T(!new)> {
    const queue: Queue<T>
    /** The batches handed to the database, whether or not it accepted them. */
    var written: seq<seq<T>>
    var prunes: nat

    ghost predicate Consistent()
      reads this, queue
    {
      && queue.capacity > 0
      && Valid(queue.Now(), queue.capacity)
      && Concat(written) == queue.drained
    }

    constructor (queue: Queue<T>)
      requires queue.capacity > 0 && queue.Now() == Empty()
      ensures this.queue == queue && Consistent() && written == []
    {
      this.queue := queue;
      written, prunes := [], 0;
      EmptyIsValid<T>(queue.capacity);
    }

    /** What the recording sites push before the writer goes on. */
    method Arrive(records: seq<T>)
      requires Consistent()
      modifies queue
      ensures Consistent() && queue.pushed == old(queue.pushed) + records && queue.drained == old(queue.drained)
      ensures records == [] ==> queue.Now() == old(queue.Now())
    {
      hide Valid, Next;
      var i := 0;
      while i < |records|
        invariant 0 <= i <= |records| && Consistent()
        invariant queue.pushed == old(queue.pushed) + records[..i] && queue.drained == old(queue.drained)
        invariant i == 0 ==> queue.Now() == old(queue.Now())
      {
        PushKeepsValid(queue.Now(), queue.capacity, records[i]);
        PushRecords(queue.Now(), queue.capacity, records[i]);
        queue.Push(records[i]);
        i := i + 1;
      }
    }

    method DrainAndWrite() returns (wrote: bool)
      requires Consistent()
      modifies this`written, queue
      ensures Consistent() && queue.pushed == old(queue.pushed) && queue.dropped == old(queue.dropped)
      ensures wrote <==> old(queue.pending) != []
      ensures |queue.pending| == if |old(queue.pending)| <= MAX_BATCH then 0 else |old(queue.pending)| - MAX_BATCH
    {
      DrainKeepsValid(queue.Now(), queue.capacity);
      DrainRecords(queue.Now(), queue.capacity);
      hide Valid, Next, Concat;
      var batch := queue.Drain();
      if batch == [] { return false; }
      ConcatStep(written, batch);
      written := written + [batch];
      return true;
    }

    /** Writes batches until none is left; `late` is what is pushed before each of them. */
    method DrainAll(late: seq<seq<T>>) returns (seen: nat)
      requires Consistent()
      modifies this`written, queue
      ensures Consistent() && queue.pending == []
      ensures seen <= |late| && queue.pushed == old(queue.pushed) + Concat(late[..seen])
      ensures late == [] ==> queue.dropped == old(queue.dropped)
    {
      assert Concat(late[..0]) == [];
      hide Valid, Concat, Next, Picks;
      var wrote := true;
      seen := 0;
      while wrote
        invariant Consistent() && seen <= |late|
        invariant queue.pushed == old(queue.pushed) + Concat(late[..seen])
        invariant late == [] ==> queue.dropped == old(queue.dropped)
        invariant !wrote ==> queue.pending == []
        decreases |late| - seen, |queue.pending|, wrote
      {
        if seen < |late| {
          Arrive(late[seen]);
          ConcatNext(late, seen);
          seen := seen + 1;
        }
        wrote := DrainAndWrite();
      }
    }

    /**
     Drains, writes and prunes until the stop signal, then writes what is still queued, while other
     tasks go on pushing; the task is stopped at the latest after the last moment. On return the
     queue is empty and every record pushed was handed to the database, in order, or counted as dropped.
     */
    method Serve(moments: seq<Moment<T>>, late: seq<seq<T>>) returns (seen: nat, flushed: nat)
      requires Consistent()
      modifies this, queue
      ensures Consistent() && queue.pending == []
      ensures seen <= |moments| && flushed <= |late|
      ensures queue.pushed == old(queue.pushed) + Arrivals(moments[..seen]) + Concat(late[..flushed])
      ensures |queue.pushed| == |Concat(written)| + queue.dropped
      ensures queue.dropped == 0 <==> Concat(written) == queue.pushed
    {
      hide Valid, Concat;
      var prunePending := true;
      seen := 0;
      while seen < |moments|
        invariant Consistent() && 0 <= seen <= |moments|
        invariant queue.pushed == old(queue.pushed) + Arrivals(moments[..seen])
      {
        var m := moments[seen];
        ArrivalsStep(moments, seen);
        Arrive(m.arrivals);
        seen := seen + 1;
        if m.stopped { break; }
        var wrote := DrainAndWrite();
        if wrote || prunePending {
          prunes := prunes + 1;
          prunePending := m.moreToPrune;
        }
      }
      flushed := DrainAll(late);
      AccountFor(queue.Now(), queue.capacity);
    }
  }

  lemma ArrivalsStep<T>(moments: seq<Moment<T>>, n: nat)
    requires n < |moments|
    ensures Arrivals(moments[..n + 1]) == Arrivals(moments[..n]) + moments[n].arrivals
  {
    assert moments[..n + 1][..n] == moments[..n];
  }

  lemma PushRecords<T(!new)>(s: State<T>, capacity: nat, r: T)
    requires capacity > 0
    ensures Next(s, capacity, Push(r)).pushed == s.pushed + [r] && Next(s, capacity, Push(r)).drained == s.drained
  {}

  lemma DrainRecords<T(!new)>(s: State<T>, capacity: nat)
    requires capacity > 0
    ensures var t := Next(s, capacity, Drain);
            && t.pushed == s.pushed && t.dropped == s.dropped
            && |t.pending| == (if |s.pending| <= MAX_BATCH then 0 else |s.pending| - MAX_BATCH)
  {}

  lemma ConcatStep<T>(batches: seq<seq<T>>, batch: seq<T>)
    ensures Concat(batches + [batch]) == Concat(batches) + batch
  {
    assert (batches + [batch])[..|batches|] == batches;
  }

  lemma ConcatNext<T>(batches: seq<seq<T>>, n: nat)
    requires n < |batches|
    ensures Concat(batches[..n + 1]) == Concat(batches[..n]) + batches[n]
  {
    assert batches[..n + 1] == batches[..n] + [batches[n]];
    ConcatStep(batches[..n], batches[n]);
  }

  lemma AccountFor<T(!new)>(s: State<T>, capacity: nat)
    requires Valid(s, capacity) && s.pending == []
    ensures |s.pushed| == |s.drained| + s.dropped
    ensures s.dropped == 0 <==> s.drained == s.pushed
  {
    NoDropMeansNoLoss(s, capacity);
    assert s.drained + [] == s.drained;
  }
}
