/** Insertion keeps a sorted map sorted, and a sorted map is determined by
    its contents: the order in which keys were added does not show. */
module SortedMapFacts {
  import opened Results
  import opened SortedMaps

  /** Every key of `m` follows `k`. */
  ghost predicate Above<V>(lt: Less, k: string, m: seq<Entry<V>>) {
    forall i | 0 <= i < |m| :: lt(k, m[i].key)
  }

  lemma SortedCons<V>(lt: Less, x: Entry<V>, m: seq<Entry<V>>)
    requires Above(lt, x.key, m) && Sorted(lt, m)
    ensures Sorted(lt, [x] + m)
  {
    var full := [x] + m;
    forall i, j | 0 <= i < j < |full|
      ensures lt(full[i].key, full[j].key)
    {
      assert full[j] == m[j - 1];
      if i > 0 {
        assert full[i] == m[i - 1];
      }
    }
  }

  lemma {:induction false} InsertAbove<V>(lt: Less, k: string, m: seq<Entry<V>>, e: Entry<V>)
    requires Above(lt, k, m) && lt(k, e.key)
    ensures Above(lt, k, Insert(lt, m, e))
    decreases |m|
  {
    if |m| > 0 && !lt(e.key, m[0].key) {
      InsertAbove(lt, k, m[1..], e);
    }
  }

  /** Inserting a new key keeps the keys strictly increasing. */
  lemma {:induction false} InsertKeepsSorted<V>(lt: Less, m: seq<Entry<V>>, e: Entry<V>)
    requires StrictTotalOrder(lt) && Sorted(lt, m) && !HasKey(m, e.key)
    ensures Sorted(lt, Insert(lt, m, e))
    decreases |m|
  {
    if |m| == 0 {
    } else if lt(e.key, m[0].key) {
      assert Above(lt, e.key, m) by {
        forall i | 0 <= i < |m|
          ensures lt(e.key, m[i].key)
        {
          if i > 0 {
            assert lt(m[0].key, m[i].key);
          }
        }
      }
      SortedCons(lt, e, m);
    } else {
      assert m[0].key != e.key;
      assert lt(m[0].key, e.key);
      var rest := m[1..];
      assert !HasKey(rest, e.key) by {
        assert forall i | 0 <= i < |rest| :: rest[i] == m[i + 1];
      }
      InsertKeepsSorted(lt, rest, e);
      assert Above(lt, m[0].key, rest) by {
        assert forall i | 0 <= i < |rest| :: rest[i] == m[i + 1];
      }
      InsertAbove(lt, m[0].key, rest, e);
      SortedCons(lt, m[0], Insert(lt, rest, e));
    }
  }

  /** A key that follows every key present is placed last. */
  lemma {:induction false} InsertGreatest<V>(lt: Less, m: seq<Entry<V>>, e: Entry<V>)
    requires StrictTotalOrder(lt)
    requires forall i | 0 <= i < |m| :: lt(m[i].key, e.key)
    ensures Insert(lt, m, e) == m + [e]
    decreases |m|
  {
    if |m| > 0 {
      assert lt(m[0].key, e.key);
      assert !lt(e.key, m[0].key);
      InsertGreatest(lt, m[1..], e);
      assert m == [m[0]] + m[1..];
    }
  }

  /** A lookup after an insertion sees the new entry and nothing else
      changed. */
  lemma {:induction false} GetAfterInsert<V>(lt: Less, m: seq<Entry<V>>, e: Entry<V>, k: string)
    requires !HasKey(m, e.key)
    ensures Get(Insert(lt, m, e), k) == if k == e.key then Some(e.value) else Get(m, k)
    decreases |m|
  {
    if |m| > 0 && !lt(e.key, m[0].key) {
      assert !HasKey(m[1..], e.key) by {
        assert forall i | 0 <= i < |m| - 1 :: m[1..][i] == m[i + 1];
      }
      GetAfterInsert(lt, m[1..], e, k);
    }
  }

  /** In a sorted map the first entry has the least key. */
  lemma FirstIsLeast<V>(lt: Less, m: seq<Entry<V>>, x: Entry<V>)
    requires StrictTotalOrder(lt) && Sorted(lt, m) && x in multiset(m) && x != m[0]
    ensures lt(m[0].key, x.key)
  {
    var j :| 0 <= j < |m| && m[j] == x;
    assert j != 0;
  }

  lemma MultisetTail<V>(a: seq<Entry<V>>)
    requires |a| > 0
    ensures multiset(a[1..]) == multiset(a) - multiset{a[0]}
  {
    assert a == [a[0]] + a[1..];
  }

  lemma SortedTail<V>(lt: Less, a: seq<Entry<V>>)
    requires |a| > 0 && Sorted(lt, a)
    ensures Sorted(lt, a[1..])
  {
    assert forall i | 0 <= i < |a| - 1 :: a[1..][i] == a[i + 1];
  }

  /** Two sorted maps with the same entries start with the same entry. */
  lemma SameFirst<V>(lt: Less, a: seq<Entry<V>>, b: seq<Entry<V>>)
    requires StrictTotalOrder(lt) && Sorted(lt, a) && Sorted(lt, b)
    requires |a| > 0 && multiset(a) == multiset(b)
    ensures |b| > 0 && a[0] == b[0]
  {
    assert a[0] in multiset(b);
    if a[0] != b[0] {
      assert b[0] in multiset(a);
      FirstIsLeast(lt, b, a[0]);
      FirstIsLeast(lt, a, b[0]);
      assert false;
    }
  }

  /** Two sorted maps with the same entries are the same sequence, so the
      iteration order depends on the keys alone. */
  lemma {:induction false} SortedIsCanonical<V>(lt: Less, a: seq<Entry<V>>, b: seq<Entry<V>>)
    requires StrictTotalOrder(lt) && Sorted(lt, a) && Sorted(lt, b)
    requires multiset(a) == multiset(b)
    ensures a == b
    decreases |a|
  {
    assert |a| == |multiset(a)| == |b|;
    if |a| > 0 {
      SameFirst(lt, a, b);
      MultisetTail(a);
      MultisetTail(b);
      SortedTail(lt, a);
      SortedTail(lt, b);
      SortedIsCanonical(lt, a[1..], b[1..]);
      assert a == [a[0]] + a[1..] && b == [b[0]] + b[1..];
    }
  }

  /** Sorted keys are distinct. */
  lemma SortedKeysDistinct<V>(lt: Less, m: seq<Entry<V>>)
    requires StrictTotalOrder(lt) && Sorted(lt, m)
    ensures forall i, j | 0 <= i < j < |m| :: m[i].key != m[j].key
  {
  }

  // ---------------------------------------------------------------------
  // The ordinal comparer

  lemma {:induction false} OrdinalIrreflexive(a: string)
    ensures !OrdinalLess(a, a)
    decreases |a|
  {
    if |a| > 0 {
      OrdinalIrreflexive(a[1..]);
    }
  }

  lemma {:induction false} OrdinalTransitive(a: string, b: string, c: string)
    requires OrdinalLess(a, b) && OrdinalLess(b, c)
    ensures OrdinalLess(a, c)
    decreases |a|
  {
    if |a| > 0 && |b| > 0 && |c| > 0 && a[0] == b[0] == c[0] {
      OrdinalTransitive(a[1..], b[1..], c[1..]);
    }
  }

  lemma {:induction false} OrdinalTotal(a: string, b: string)
    requires a != b
    ensures OrdinalLess(a, b) || OrdinalLess(b, a)
    decreases |a|
  {
    if |a| > 0 && |b| > 0 && a[0] == b[0] {
      assert a == [a[0]] + a[1..] && b == [b[0]] + b[1..];
      OrdinalTotal(a[1..], b[1..]);
    }
  }

  /** The ordinal comparer satisfies what the map lemmas assume. */
  lemma OrdinalIsStrictTotalOrder()
    ensures StrictTotalOrder(Ordinal())
  {
    forall a { OrdinalIrreflexive(a); }
    forall a, b, c | OrdinalLess(a, b) && OrdinalLess(b, c) { OrdinalTransitive(a, b, c); }
    forall a, b | a != b { OrdinalTotal(a, b); }
  }
}
