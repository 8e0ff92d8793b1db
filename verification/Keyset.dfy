/**
 Keyset paging over a table whose rows are read in strictly increasing key order:
 `WHERE key > after ORDER BY key LIMIT n`, and the bounded re-read
 `WHERE key > after AND key <= through`.
 */
module Keyset {

  /** A row key. Rowid tables use only the first component. */
  datatype Key = Key(a: int, b: int, c: int)

  predicate Less(x: Key, y: Key) {
    x.a < y.a || (x.a == y.a && (x.b < y.b || (x.b == y.b && x.c < y.c)))
  }

  /** Keys are ordered as tuples are: by the first component in which they differ. */
  lemma LessIsLexicographic(x: Key, y: Key)
    ensures x == y || Less(x, y) != Less(y, x)
    ensures x.a != y.a ==> (Less(x, y) <==> x.a < y.a)
    ensures x.a == y.a && x.b != y.b ==> (Less(x, y) <==> x.b < y.b)
    ensures x.a == y.a && x.b == y.b ==> (Less(x, y) <==> x.c < y.c)
  {}

  ghost predicate Ascending<T>(rows: seq<T>, key: T -> Key) {
    forall i, j | 0 <= i < j < |rows| :: Less(key(rows[i]), key(rows[j]))
  }

  function Filter<T>(rows: seq<T>, keep: T -> bool): (kept: seq<T>)
    ensures |kept| <= |rows|
  {
    if rows == [] then [] else
    var rest := Filter(rows[1..], keep);
    if keep(rows[0]) then [rows[0]] + rest else rest
  }

  function Take<T>(rows: seq<T>, limit: nat): seq<T> {
    if limit < |rows| then rows[..limit] else rows
  }

  /** One bounded page of rows above `after`. */
  function Page<T>(rows: seq<T>, key: T -> Key, after: Key, limit: nat): seq<T> {
    Take(Filter(rows, r => Less(after, key(r))), limit)
  }

  /** The rows in `(after, through]`. */
  function Range<T>(rows: seq<T>, key: T -> Key, after: Key, through: Key): seq<T> {
    Filter(rows, r => Less(after, key(r)) && !Less(through, key(r)))
  }

  lemma {:induction false} FilterWindow<T>(rows: seq<T>, keep: T -> bool, from: nat, to: nat)
    requires from <= to <= |rows|
    requires forall i | 0 <= i < |rows| :: keep(rows[i]) <==> from <= i < to
    ensures Filter(rows, keep) == rows[from..to]
  {
    if rows != [] {
      var f, t := if from == 0 then 0 else from - 1, if to == 0 then 0 else to - 1;
      FilterWindow(rows[1..], keep, f, t);
      if keep(rows[0]) {
        assert rows[from..to] == [rows[0]] + rows[1..][f..t];
      } else {
        assert rows[from..to] == rows[1..][f..t];
      }
    }
  }

  /** `after` lies between row `at - 1` and row `at`. */
  ghost predicate Cursor<T>(rows: seq<T>, key: T -> Key, after: Key, at: nat) {
    && at <= |rows|
    && (forall i | 0 <= i < at :: !Less(after, key(rows[i])))
    && (forall i | at <= i < |rows| :: Less(after, key(rows[i])))
  }

  lemma RowIsCursor<T>(rows: seq<T>, key: T -> Key, at: nat)
    requires Ascending(rows, key) && 0 < at <= |rows|
    ensures Cursor(rows, key, key(rows[at - 1]), at)
  {
  }

  /** A page continues exactly where the cursor stands. */
  lemma PageAtCursor<T>(rows: seq<T>, key: T -> Key, after: Key, limit: nat, at: nat)
    requires Cursor(rows, key, after, at)
    ensures Page(rows, key, after, limit) == rows[at..(if at + limit < |rows| then at + limit else |rows|)]
  {
    FilterWindow(rows, r => Less(after, key(r)), at, |rows|);
    assert rows[at..|rows|] == rows[at..];
    if at + limit < |rows| { assert rows[at..][..limit] == rows[at..at + limit]; }
  }

  /**
   Re-reading the range that ends at a page's last row returns the page: what a batch writes
   is what its keyset read announced.
   */
  lemma RangeRereadsPage<T>(rows: seq<T>, key: T -> Key, after: Key, limit: nat, at: nat)
    requires Ascending(rows, key) && Cursor(rows, key, after, at)
    requires Page(rows, key, after, limit) != []
    ensures var page := Page(rows, key, after, limit);
            Range(rows, key, after, key(page[|page| - 1])) == page
  {
    PageAtCursor(rows, key, after, limit, at);
    var to := if at + limit < |rows| then at + limit else |rows|;
    var page := rows[at..to];
    var through := key(page[|page| - 1]);
    assert through == key(rows[to - 1]);
    RowIsCursor(rows, key, to);
    RangeBetweenCursors(rows, key, after, through, at, to);
  }

  lemma RangeBetweenCursors<T>(rows: seq<T>, key: T -> Key, after: Key, through: Key, from: nat, to: nat)
    requires from <= to && Cursor(rows, key, after, from) && Cursor(rows, key, through, to)
    ensures Range(rows, key, after, through) == rows[from..to]
  {
    FilterWindow(rows, r => Less(after, key(r)) && !Less(through, key(r)), from, to);
  }
}
