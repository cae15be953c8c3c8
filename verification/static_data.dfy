/** The assembler's static segment (VASM/Assembler.StaticData.cs): named
    byte strings kept in a sorted dictionary, each stamped with the running
    total of the sizes added before it. */
module Statics {
  import opened Results
  import opened Bytes
  import opened SortedMaps

  datatype Item = Item(identifier: string, bytes: seq<byte>, offset: int)

  datatype StaticData = StaticData(size: int, items: seq<Entry<Item>>)

  /** A fresh, empty static segment. */
  function Empty(): StaticData {
    StaticData(0, [])
  }

  /** The bytes of the entries, in map order (`SelectMany`). */
  function Concat(m: seq<Entry<Item>>): seq<byte> {
    if |m| == 0 then [] else Concat(m[..|m| - 1]) + m[|m| - 1].value.bytes
  }

  /** `AllBytes`. */
  function AllBytes(d: StaticData): seq<byte> {
    Concat(d.items)
  }

  /** What every reachable static segment satisfies: sorted keys, each item
      stored under its own identifier, and the size counter equal to the
      number of bytes held. */
  ghost predicate Valid(lt: Less, d: StaticData) {
    && Sorted(lt, d.items)
    && (forall i | 0 <= i < |d.items| :: d.items[i].key == d.items[i].value.identifier)
    && d.size == |AllBytes(d)|
  }

  /** `Add`: the item is stamped with the current size; a duplicate
      identifier makes the dictionary throw (`None`). */
  function Add(lt: Less, d: StaticData, identifier: string, bytes: seq<byte>): (r: Option<StaticData>)
    ensures r.None? <==> HasKey(d.items, identifier)
    ensures r.Some? ==> r.value.size == d.size + |bytes|
    ensures r.Some? ==> Entry(identifier, Item(identifier, bytes, d.size)) in r.value.items
    ensures r.Some? ==> multiset(r.value.items) == multiset(d.items) + multiset{Entry(identifier, Item(identifier, bytes, d.size))}
  {
    match SortedMaps.Add(lt, d.items, identifier, Item(identifier, bytes, d.size))
    case None => None
    case Some(items) =>
      assert Entry(identifier, Item(identifier, bytes, d.size)) in multiset(items);
      Some(StaticData(d.size + |bytes|, items))
  }

  /** `GetOffset`: the recorded offset, `None` where the indexer throws. */
  function GetOffset(d: StaticData, identifier: string): (r: Option<int>)
    ensures r.None? <==> !HasKey(d.items, identifier)
    ensures r.Some? ==> exists it | it in d.items :: it.key == identifier && it.value.offset == r.value
  {
    match Get(d.items, identifier)
    case None => None
    case Some(it) => Some(it.offset)
  }

  /** The offsets agree with where `AllBytes` puts each item. */
  ghost predicate OffsetsMatchLayout(d: StaticData) {
    forall i | 0 <= i < |d.items| :: d.items[i].value.offset == |Concat(d.items[..i])|
  }
}
