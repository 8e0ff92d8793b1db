/** Optional values and outcomes shared by the model. */
module Wrappers {

  datatype Option<+T> = None | Some(value: T)

  datatype Result<+T> = Success(value: T) | Failure

  /** A nullable integer column. */
  type Cell = Option<int>

  lemma MemberExists(s: set<int>)
    ensures s == {} || exists x :: x in s
  {
    if !exists x :: x in s { assert s == {}; }
  }

  function Find<K, V>(m: map<K, V>, k: K): Option<V> { if k in m then Some(m[k]) else None }

  lemma SameFinds<K, V>(a: map<K, V>, b: map<K, V>)
    ensures a == b <==> forall k :: Find(a, k) == Find(b, k)
  {
    if forall k :: Find(a, k) == Find(b, k) {
      assert forall k :: k in a <==> Find(a, k).Some?;
      assert forall k :: k in b <==> Find(b, k).Some?;
      forall k | k in a
        ensures k in b && a[k] == b[k]
      {
        assert Find(a, k) == Find(b, k);
      }
      assert a.Keys == b.Keys;
    }
  }
}
