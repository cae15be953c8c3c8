/** The static segment's size counter always equals the number of bytes it
    holds; its offsets describe the emitted layout only when identifiers are
    added in increasing order. */
module StaticsFacts {
  import opened Results
  import opened Bytes
  import opened SortedMaps
  import opened SortedMapFacts
  import opened Statics

  lemma {:induction false} ConcatAppend(a: seq<Entry<Item>>, b: seq<Entry<Item>>)
    ensures Concat(a + b) == Concat(a) + Concat(b)
    decreases |b|
  {
    if |b| > 0 {
      var b' := b[..|b| - 1];
      assert (a + b)[..|a + b| - 1] == a + b';
      ConcatAppend(a, b');
    } else {
      assert a + b == a;
    }
  }

  lemma ConcatOne(e: Entry<Item>)
    ensures Concat([e]) == e.value.bytes
  {
    assert [e][..0] == [];
  }

  /** Insertion adds exactly the new item's bytes to the total. */
  lemma {:induction false} ConcatInsertLength(lt: Less, m: seq<Entry<Item>>, e: Entry<Item>)
    ensures |Concat(Insert(lt, m, e))| == |Concat(m)| + |e.value.bytes|
    decreases |m|
  {
    ConcatOne(e);
    if |m| == 0 || lt(e.key, m[0].key) {
      ConcatAppend([e], m);
    } else {
      ConcatOne(m[0]);
      ConcatInsertLength(lt, m[1..], e);
      ConcatAppend([m[0]], Insert(lt, m[1..], e));
      ConcatAppend([m[0]], m[1..]);
      assert m == [m[0]] + m[1..];
    }
  }

  /** `Add` keeps the segment valid: in particular `size` keeps counting
      exactly the bytes `AllBytes` returns. */
  lemma AddKeepsValid(lt: Less, d: StaticData, identifier: string, bytes: seq<byte>)
    requires StrictTotalOrder(lt) && Valid(lt, d)
    requires Statics.Add(lt, d, identifier, bytes).Some?
    ensures Valid(lt, Statics.Add(lt, d, identifier, bytes).value)
  {
    var e := Entry(identifier, Item(identifier, bytes, d.size));
    var r := Statics.Add(lt, d, identifier, bytes).value;
    assert r.items == Insert(lt, d.items, e);
    InsertKeepsSorted(lt, d.items, e);
    ConcatInsertLength(lt, d.items, e);
    forall i | 0 <= i < |r.items|
      ensures r.items[i].key == r.items[i].value.identifier
    {
      assert r.items[i] in multiset(r.items);
      if r.items[i] != e {
        assert r.items[i] in multiset(d.items);
      }
    }
  }

  /** Where the offsets describe the layout, each item's bytes sit at its
      offset in `AllBytes`. */
  lemma ItemAtOffset(d: StaticData, i: nat)
    requires OffsetsMatchLayout(d) && i < |d.items|
    ensures var it := d.items[i].value;
            && 0 <= it.offset && it.offset + |it.bytes| <= |AllBytes(d)|
            && AllBytes(d)[it.offset..it.offset + |it.bytes|] == it.bytes
  {
    var m := d.items;
    assert m == m[..i] + [m[i]] + m[i + 1..];
    ConcatAppend(m[..i] + [m[i]], m[i + 1..]);
    ConcatAppend(m[..i], [m[i]]);
    ConcatOne(m[i]);
  }

  /** Adding an identifier that sorts after every present one appends its
      bytes, so the offsets keep describing the layout. */
  lemma AddInOrder(lt: Less, d: StaticData, identifier: string, bytes: seq<byte>)
    requires StrictTotalOrder(lt) && Valid(lt, d) && OffsetsMatchLayout(d)
    requires forall i | 0 <= i < |d.items| :: lt(d.items[i].key, identifier)
    ensures Statics.Add(lt, d, identifier, bytes).Some?
    ensures OffsetsMatchLayout(Statics.Add(lt, d, identifier, bytes).value)
  {
    var e := Entry(identifier, Item(identifier, bytes, d.size));
    assert !HasKey(d.items, identifier) by {
      forall i | 0 <= i < |d.items|
        ensures d.items[i].key != identifier
      {
        assert lt(d.items[i].key, identifier);
      }
    }
    InsertGreatest(lt, d.items, e);
    var r := Statics.Add(lt, d, identifier, bytes).value;
    assert r.items == d.items + [e];
    forall i | 0 <= i < |r.items|
      ensures r.items[i].value.offset == |Concat(r.items[..i])|
    {
      if i < |d.items| {
        assert r.items[..i] == d.items[..i];
      } else {
        assert r.items[..i] == d.items;
      }
    }
  }

  /** Adding `b` and then `a` stamps `a` with offset 2, yet `AllBytes`
      emits `a`'s bytes first, at offset 0. */
  lemma OutOfOrderOffsets()
    ensures var d1 := Statics.Add(Ordinal(), Empty(), "b", [1, 'b' as int]);
            && d1.Some?
            && var d2 := Statics.Add(Ordinal(), d1.value, "a", [1, 'a' as int]);
            && d2.Some?
            && GetOffset(d2.value, "a") == Some(2)
            && AllBytes(d2.value) == [1, 'a' as int, 1, 'b' as int]
            && !OffsetsMatchLayout(d2.value)
  {
    var d1 := Statics.Add(Ordinal(), Empty(), "b", [1, 'b' as int]);
    assert d1.value.items == [Entry("b", Item("b", [1, 'b' as int], 0))];
    assert OrdinalLess("a", "b");
    var ea := Entry("a", Item("a", [1, 'a' as int], 2));
    var eb := d1.value.items[0];
    var d2 := Statics.Add(Ordinal(), d1.value, "a", [1, 'a' as int]);
    assert d2.value.items == [ea, eb];
    assert d2.value.items[..0] == [];
    ConcatAppend([ea], [eb]);
    ConcatOne(ea);
    ConcatOne(eb);
  }
}
