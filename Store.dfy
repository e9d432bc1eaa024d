/**
 * The item store's bookkeeping on values: building the id → index map,
 * and removing or replacing one item while keeping the map and the render
 * cache consistent with the sequence.
 */
module Store {
  import opened Layout

  /** The map `New`, `PrependItem` and `reset` build by walking the items:
      each id is sent to its position. */
  method BuildIndex(items: seq<Item>) returns (m: map<string, int>)
    requires UniqueIds(items)
    ensures IndexConsistent(items, m)
  {
    m := map[];
    var inx := 0;
    while inx < |items|
      invariant 0 <= inx <= |items|
      invariant forall id | id in m :: 0 <= m[id] < inx && items[m[id]].id == id
      invariant forall i | 0 <= i < inx :: items[i].id in m && m[items[i].id] == i
    {
      m := m[items[inx].id := inx];
      inx := inx + 1;
    }
  }

  /** The sequence without the item at `inx`. */
  function Without(items: seq<Item>, inx: int): (r: seq<Item>)
    requires 0 <= inx < |items|
    ensures |r| == |items| - 1
    ensures forall j | 0 <= j < |r| :: r[j] == items[if j < inx then j else j + 1]
  {
    items[..inx] + items[inx + 1..]
  }

  /** `DeleteItem`'s bookkeeping: the item leaves the sequence, its id the
      map, and the ids after it are sent to their new, one lower, positions.
      Every remaining id keeps naming the same item. */
  method DeleteFromStore(items: seq<Item>, indexMap: map<string, int>, id: string)
    returns (items': seq<Item>, indexMap': map<string, int>)
    requires IndexConsistent(items, indexMap) && id in indexMap
    ensures items' == Without(items, indexMap[id])
    ensures IndexConsistent(items', indexMap')
    ensures indexMap'.Keys == indexMap.Keys - {id}
    ensures forall k | k in indexMap' :: items'[indexMap'[k]] == items[indexMap[k]]
  {
    var inx := indexMap[id];
    items' := Without(items, inx);
    indexMap' := indexMap - {id};
    var i := inx;
    while i < |items'|
      invariant inx <= i <= |items'|
      invariant indexMap'.Keys == indexMap.Keys - {id}
      invariant forall k | k in indexMap' :: indexMap'[k] == if inx < indexMap[k] <= i then indexMap[k] - 1 else indexMap[k]
    {
      indexMap' := indexMap'[items'[i].id := i];
      i := i + 1;
    }
    ShiftedIndexConsistent(items, indexMap, id, items', indexMap');
  }

  /** Once every position after the deleted one is one lower, the map
      agrees with the shortened sequence. */
  lemma ShiftedIndexConsistent(items: seq<Item>, indexMap: map<string, int>, id: string,
                               items': seq<Item>, indexMap': map<string, int>)
    requires IndexConsistent(items, indexMap) && id in indexMap
    requires items' == Without(items, indexMap[id])
    requires indexMap'.Keys == indexMap.Keys - {id}
    requires forall k | k in indexMap' :: indexMap'[k] == if indexMap[id] < indexMap[k] then indexMap[k] - 1 else indexMap[k]
    ensures IndexConsistent(items', indexMap')
    ensures forall k | k in indexMap' :: items'[indexMap'[k]] == items[indexMap[k]]
  {
    var inx := indexMap[id];
    forall k | k in indexMap'
      ensures 0 <= indexMap'[k] < |items'| && items'[indexMap'[k]] == items[indexMap[k]]
    {
      assert indexMap[k] != inx;
    }
    forall j | 0 <= j < |items'|
      ensures items'[j].id in indexMap' && indexMap'[items'[j].id] == j
    {
      var q := if j < inx then j else j + 1;
      assert items'[j] == items[q] && indexMap[items[q].id] == q;
    }
  }

  /** After a deletion that keeps every remaining id on its item, a cache
      without the deleted id is consistent with the new store. */
  lemma CacheAfterDelete(items: seq<Item>, indexMap: map<string, int>, items': seq<Item>, indexMap': map<string, int>,
                         cache: map<string, RenderedItem>, id: string)
    requires CacheConsistent(items, indexMap, cache)
    requires indexMap'.Keys == indexMap.Keys - {id}
    requires forall k | k in indexMap' :: 0 <= indexMap'[k] < |items'| && 0 <= indexMap[k] < |items|
                                          && items'[indexMap'[k]] == items[indexMap[k]]
    ensures CacheConsistent(items', indexMap', cache - {id})
  {
  }

  /** `UpdateItem` replaces the item at the position of its id; the map
      stays as it is, and the cache without that id stays consistent. */
  lemma ReplaceKeepsStore(items: seq<Item>, indexMap: map<string, int>, cache: map<string, RenderedItem>, item: Item)
    requires IndexConsistent(items, indexMap) && CacheConsistent(items, indexMap, cache)
    requires item.id in indexMap
    ensures IndexConsistent(items[indexMap[item.id] := item], indexMap)
    ensures CacheConsistent(items[indexMap[item.id] := item], indexMap, cache - {item.id})
  {
  }

  /** `AppendItem` adds an item with a new id at the end and sends its id
      to the last position; the cache stays consistent. */
  lemma AppendKeepsStore(items: seq<Item>, indexMap: map<string, int>, cache: map<string, RenderedItem>, item: Item)
    requires IndexConsistent(items, indexMap) && CacheConsistent(items, indexMap, cache)
    requires item.id !in indexMap
    ensures IndexConsistent(items + [item], indexMap[item.id := |items|])
    ensures CacheConsistent(items + [item], indexMap[item.id := |items|], cache)
  {
  }

  /** `PrependItem` adds an item with a new id at the front; once the map is
      rebuilt, every cached id still names the item it was made from. */
  lemma PrependKeepsStore(items: seq<Item>, indexMap: map<string, int>, cache: map<string, RenderedItem>, item: Item,
                          indexMap': map<string, int>)
    requires IndexConsistent(items, indexMap) && CacheConsistent(items, indexMap, cache)
    requires item.id !in indexMap
    requires IndexConsistent([item] + items, indexMap')
    ensures CacheConsistent([item] + items, indexMap', cache)
  {
    var items' := [item] + items;
    forall k | k in cache
      ensures k in indexMap' && 0 <= indexMap'[k] < |items'| && EntryFits(cache[k], items'[indexMap'[k]].view)
    {
      var p := indexMap[k];
      assert items'[p + 1].id == k;
      assert indexMap'[k] == p + 1;
    }
  }

  /** Prepending keeps the ids distinct. */
  lemma PrependUnique(items: seq<Item>, indexMap: map<string, int>, item: Item)
    requires IndexConsistent(items, indexMap) && item.id !in indexMap
    ensures UniqueIds([item] + items)
  {
    IndexConsistentUnique(items, indexMap);
  }
}
