/**
 The packet ids of one connection, and why re-rolling the id always ends: ids that fail the check
 have distinct check sequences, and only few check sequences fail.
 */
module PacketIds {
  import opened Bits
  import opened Fcs
  import opened Framing
  import opened Wrappers

  /** The id after `id`: fifteen bits, never zero. */
  function NextId(id: word): (r: word)
    ensures 1 <= r <= 0x7FFF
  {
    var next := (id + 1) % 65536 % 0x8000;
    if next == 0 then 1 else next
  }

  /** The id issued `k` requests after `id` was. */
  function IdAfter(id: word, k: nat): word { if k == 0 then id else NextId(IdAfter(id, k - 1)) }

  lemma NextIdCounts(id: word)
    requires 1 <= id <= 0x7FFF
    ensures NextId(id) == if id == 0x7FFF then 1 else id + 1
  {}

  lemma WrapOnce(m: nat)
    ensures (m + 1) % 0x7FFF == if m % 0x7FFF == 0x7FFE then 0 else m % 0x7FFF + 1
  {}

  lemma {:induction false} IdAfterClosed(id: word, k: nat)
    requires 1 <= id <= 0x7FFF
    ensures IdAfter(id, k) == (id - 1 + k) % 0x7FFF + 1
  {
    hide NextId;
    if k > 0 {
      IdAfterClosed(id, k - 1);
      NextIdCounts(IdAfter(id, k - 1));
      WrapOnce(id - 1 + (k - 1));
    }
  }

  lemma WrapsBack(x: nat, d: nat)
    requires x < 0x7FFF && 0 < d <= 0x7FFF
    ensures (x + d) % 0x7FFF == x <==> d == 0x7FFF
  {
    assert (x + d) % 0x7FFF == if x + d < 0x7FFF then x + d else x + d - 0x7FFF;
  }

  lemma {:induction false} IdAfterSplit(id: word, j: nat, k: nat)
    ensures IdAfter(id, j + k) == IdAfter(IdAfter(id, j), k)
  {
    if k > 0 { IdAfterSplit(id, j, k - 1); }
  }

  /** An id comes back after exactly 32767 further requests and not before. */
  lemma IdsRepeatOnlyAfterAllWereUsed(id: word, j: nat, k: nat)
    requires 1 <= j < k <= j + 0x7FFF
    ensures 1 <= IdAfter(id, j) <= 0x7FFF
    ensures IdAfter(id, j) == IdAfter(id, k) <==> k == j + 0x7FFF
  {
    hide NextId;
    var first := IdAfter(id, j);
    IdAfterSplit(id, j, k - j);
    IssuedRange(id, j);
    IdAfterClosed(first, k - j);
    hide IdAfter;
    WrapsBack(first - 1, k - j);
  }

  lemma IssuedRange(id: word, j: nat)
    requires j >= 1
    ensures 1 <= IdAfter(id, j) <= 0x7FFF
  {}

  // ---------------------------------------------------------------- counting

  function Image(f: int -> int, n: nat): set<int> { set k | 0 <= k < n :: f(k) }

  lemma {:induction false} ImageSize(f: int -> int, n: nat)
    ensures |Image(f, n)| <= n
  {
    if n > 0 {
      ImageSize(f, n - 1);
      assert Image(f, n) == Image(f, n - 1) + {f(n - 1)};
    }
  }

  lemma {:induction false} InjectiveImageSize(f: int -> int, n: nat)
    requires forall j, k | 0 <= j < k < n :: f(j) != f(k)
    ensures |Image(f, n)| == n
  {
    if n > 0 {
      InjectiveImageSize(f, n - 1);
      assert Image(f, n) == Image(f, n - 1) + {f(n - 1)};
    }
  }

  /** The check sequences with an escape byte or a flag in them. */
  function DirtyWords(): set<int> {
    Image(k => 256 * k + 0x7D, 256) + Image(k => 256 * k + 0x7E, 256)
    + Image(k => 256 * 0x7D + k, 256) + Image(k => 256 * 0x7E + k, 256)
  }

  lemma DirtyWordsAreFew()
    ensures |DirtyWords()| <= 1024
  {
    var a, b := (k: int) => 256 * k + 0x7D, (k: int) => 256 * k + 0x7E;
    var c, d := (k: int) => 256 * 0x7D + k, (k: int) => 256 * 0x7E + k;
    ImageSize(a, 256);
    ImageSize(b, 256);
    ImageSize(c, 256);
    ImageSize(d, 256);
    assert DirtyWords() == Image(a, 256) + Image(b, 256) + Image(c, 256) + Image(d, 256);
  }

  lemma DirtyIsListed(w: word)
    requires !Clean(w)
    ensures w as int in DirtyWords()
  {
    var lo, hi := w % 256, w / 256;
    assert w == 256 * hi + lo;
    if lo == 0x7D {
      assert ((k: int) => 256 * k + 0x7D)(hi) in Image(k => 256 * k + 0x7D, 256);
    } else if lo == 0x7E {
      assert ((k: int) => 256 * k + 0x7E)(hi) in Image(k => 256 * k + 0x7E, 256);
    } else if hi == 0x7D {
      assert ((k: int) => 256 * 0x7D + k)(lo) in Image(k => 256 * 0x7D + k, 256);
    } else {
      assert ((k: int) => 256 * 0x7E + k)(lo) in Image(k => 256 * 0x7E + k, 256);
    }
  }

  // ---------------------------------------------------------------- re-rolling

  /** The check sequence of the k-th attempt after `id`. */
  function Attempt(a: Addressing, id: word, k: nat, payload: seq<byte>): word {
    Check(Body(a, IdAfter(id, k), payload))
  }

  lemma AttemptsDiffer(a: Addressing, id: word, j: nat, k: nat, payload: seq<byte>)
    requires 1 <= j < k < j + 0x7FFF
    ensures Attempt(a, id, j, payload) != Attempt(a, id, k, payload)
  {
    hide Check, HeaderStart, IdAfter;
    IdsRepeatOnlyAfterAllWereUsed(id, j, k);
    IdsRepeatOnlyAfterAllWereUsed(id, k, k + 1);
    FieldChangesCheck(HeaderStart(a), Tagged(IdAfter(id, j)), Tagged(IdAfter(id, k)), payload);
  }

  /** At most 1024 attempts in a row fail: the search for an id ends for every request. */
  lemma FewAttemptsFail(a: Addressing, id: word, n: nat, payload: seq<byte>)
    requires forall k | 1 <= k <= n :: !Clean(Attempt(a, id, k, payload))
    ensures n <= 1024
  {
    hide Attempt, DirtyWords, Clean;
    if n > 1024 {
      var f := (k: int) => if k >= 0 then Attempt(a, id, k + 1, payload) as int else 0;
      forall j, k | 0 <= j < k < 1025
        ensures f(j) != f(k)
      {
        AttemptsDiffer(a, id, j + 1, k + 1, payload);
      }
      InjectiveImageSize(f, 1025);
      forall w | w in Image(f, 1025)
        ensures w in DirtyWords()
      {
        var k :| 0 <= k < 1025 && f(k) == w;
        DirtyIsListed(Attempt(a, id, k + 1, payload));
      }
      DirtyWordsAreFew();
      SubsetSize(Image(f, 1025), DirtyWords());
    }
  }

  lemma {:induction false} SubsetSize(a: set<int>, b: set<int>)
    requires a <= b
    ensures |a| <= |b|
  {
    if a != {} {
      MemberExists(a);
      var x :| x in a;
      SubsetSize(a - {x}, b - {x});
    }
  }

  /** The first attempt from the k-th on whose check sequence may be sent. */
  function FirstClean(a: Addressing, id: word, payload: seq<byte>, k: nat): (n: nat)
    requires k >= 1 && forall j | 1 <= j < k :: !Clean(Attempt(a, id, j, payload))
    ensures k <= n <= 1025 && Clean(Attempt(a, id, n, payload))
    ensures forall j | 1 <= j < n :: !Clean(Attempt(a, id, j, payload))
    decreases 1025 - k
  {
    FewAttemptsFail(a, id, k - 1, payload);
    if Clean(Attempt(a, id, k, payload)) then k
    else
      FewAttemptsFail(a, id, k, payload);
      FirstClean(a, id, payload, k + 1)
  }

  /** The id of the next request after `id`. */
  function FreshId(a: Addressing, id: word, payload: seq<byte>): (r: word)
    ensures 1 <= r <= 0x7FFF && Clean(Check(Body(a, r, payload)))
  {
    var n := FirstClean(a, id, payload, 1);
    IssuedRange(id, n);
    IdAfter(id, n)
  }

  lemma FreshIdIsIssued(a: Addressing, id: word, payload: seq<byte>) returns (n: nat)
    ensures 1 <= n <= 1025 && FreshId(a, id, payload) == IdAfter(id, n)
  {
    n := FirstClean(a, id, payload, 1);
  }

  /** The ids of three successive requests, re-rolls included, all differ. */
  lemma SuccessiveIdsDiffer(a: Addressing, id: word, payload: seq<byte>)
    ensures var first := FreshId(a, id, payload);
            var second := FreshId(a, first, payload);
            var third := FreshId(a, second, payload);
            first != second && first != third && second != third
  {
    hide FreshId, IdAfter;
    var first := FreshId(a, id, payload);
    var second := FreshId(a, first, payload);
    var j := FreshIdIsIssued(a, id, payload);
    var k := FreshIdIsIssued(a, first, payload);
    var l := FreshIdIsIssued(a, second, payload);
    IdAfterSplit(id, j, k);
    IdAfterSplit(id, j + k, l);
    IdsRepeatOnlyAfterAllWereUsed(id, j, j + k);
    IdsRepeatOnlyAfterAllWereUsed(id, j, j + k + l);
    IdsRepeatOnlyAfterAllWereUsed(id, j + k, j + k + l);
  }
}
