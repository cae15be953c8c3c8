/** `SortedDictionary<string, V>`: an association list kept in increasing
    key order. The comparer is a parameter (.NET's default string comparer
    is culture-sensitive); the lemmas that need it ask for a strict total
    order, and `Ordinal` is one. */
module SortedMaps {
  import opened Results

  type Less = (string, string) -> bool

  ghost predicate StrictTotalOrder(lt: Less) {
    && (forall a :: !lt(a, a))
    && (forall a, b, c :: lt(a, b) && lt(b, c) ==> lt(a, c))
    && (forall a, b :: a != b ==> lt(a, b) || lt(b, a))
  }

  datatype Entry<V> = Entry(key: string, value: V)

  /** The map's invariant: keys strictly increase. */
  ghost predicate Sorted<V>(lt: Less, m: seq<Entry<V>>) {
    forall i, j | 0 <= i < j < |m| :: lt(m[i].key, m[j].key)
  }

  predicate HasKey<V>(m: seq<Entry<V>>, k: string) {
    exists i | 0 <= i < |m| :: m[i].key == k
  }

  /** The indexer's lookup, `None` for a missing key. */
  function Get<V>(m: seq<Entry<V>>, k: string): (r: Option<V>)
    ensures r.None? <==> !HasKey(m, k)
    ensures r.Some? ==> Entry(k, r.value) in m
  {
    if |m| == 0 then None
    else if m[0].key == k then Some(m[0].value)
    else
      var r := Get(m[1..], k);
      assert forall i | 1 <= i < |m| :: m[i] == m[1..][i - 1];
      r
  }

  /** Places an entry before the first key that follows it. */
  function Insert<V>(lt: Less, m: seq<Entry<V>>, e: Entry<V>): (r: seq<Entry<V>>)
    ensures |r| == |m| + 1
    ensures multiset(r) == multiset(m) + multiset{e}
  {
    if |m| == 0 || lt(e.key, m[0].key) then [e] + m
    else
      assert m == [m[0]] + m[1..];
      [m[0]] + Insert(lt, m[1..], e)
  }

  /** `Add`: refuses a key that is already present. */
  function Add<V>(lt: Less, m: seq<Entry<V>>, k: string, v: V): (r: Option<seq<Entry<V>>>)
    ensures r.None? <==> HasKey(m, k)
    ensures r.Some? ==> multiset(r.value) == multiset(m) + multiset{Entry(k, v)}
  {
    if HasKey(m, k) then None else Some(Insert(lt, m, Entry(k, v)))
  }

  /** Ordinal comparison: by character codes, a proper prefix first. */
  predicate OrdinalLess(a: string, b: string) {
    if |a| == 0 then |b| > 0
    else if |b| == 0 then false
    else a[0] < b[0] || (a[0] == b[0] && OrdinalLess(a[1..], b[1..]))
  }

  function Ordinal(): Less {
    (a: string, b: string) => OrdinalLess(a, b)
  }
}
