/** The exclusive multi-value LRU cache object: per-key deques, the list of nodes, and the entry count. */
module MultiLruImpl {
  import opened Blocks
  import opened Sequences
  import opened MultiLru

  /** One key's deque is that key's part of the list, and empty deques are never kept. */
  ghost predicate KeyInStep(entryMap: map<Key, seq<Item>>, items: seq<Item>, k: Key) {
    if k in entryMap then entryMap[k] == Deque(items, k) && entryMap[k] != [] else Deque(items, k) == []
  }

  /** Deques, list and count all describe the same items. */
  ghost predicate Agree(entryMap: map<Key, seq<Item>>, lruList: seq<Node>, total: nat, items: seq<Item>) {
    && lruList == NodesOf(items) && total == |items| && DistinctNodes(items)
    && forall k {:trigger KeyInStep(entryMap, items, k)} :: KeyInStep(entryMap, items, k)
  }

  /** Dropping the back of the list is removing its key's oldest item. */
  lemma OverflowIsRemoval(items: seq<Item>)
    requires items != []
    ensures var n := |items| - 1;
            var k := NodesOf(items)[n].key;
            && Deque(items, k) != [] && RemoveOldest(items, k) == items[..n]
            && Deque(items, k)[0].handle == items[n].handle
  {
    BackIsOldest(items);
  }

  lemma AgreeAfterRemoval(entryMap: map<Key, seq<Item>>, lruList: seq<Node>, total: nat, items: seq<Item>, k: Key)
    requires Agree(entryMap, lruList, total, items) && k in entryMap
    ensures Deque(items, k) != [] && entryMap[k] == Deque(items, k) && total > 0
    ensures Agree(if |entryMap[k]| == 1 then entryMap - {k} else entryMap[k := entryMap[k][1..]],
                  EraseNode(lruList, entryMap[k][0].node), total - 1, RemoveOldest(items, k))
  {
    assert KeyInStep(entryMap, items, k);
    RemoveOldestNodes(items, k);
    RemoveOldestMembers(items, k);
    RemoveOldestDistinct(items, k);
    var entryMap' := if |entryMap[k]| == 1 then entryMap - {k} else entryMap[k := entryMap[k][1..]];
    forall other ensures KeyInStep(entryMap', RemoveOldest(items, k), other) {
      assert KeyInStep(entryMap, items, other);
      RemoveOldestDeques(items, k, other);
    }
  }

  /** The deques of `keys` hold exactly the items of `left`. */
  ghost predicate Lists(entryMap: map<Key, seq<Item>>, keys: set<Key>, left: seq<Item>) {
    && (forall k :: k in keys ==> k in entryMap && Deque(left, k) == entryMap[k])
    && (forall x :: x in left ==> x.key in keys)
  }

  lemma AllListed(entryMap: map<Key, seq<Item>>, lruList: seq<Node>, total: nat, items: seq<Item>)
    requires Agree(entryMap, lruList, total, items)
    ensures Lists(entryMap, entryMap.Keys, items)
  {
    forall k | k in entryMap ensures Deque(items, k) == entryMap[k] {
      assert KeyInStep(entryMap, items, k);
    }
    forall x | x in items ensures x.key in entryMap {
      DequeMembers(items, x.key);
      assert KeyInStep(entryMap, items, x.key);
    }
  }

  lemma ListsNext(entryMap: map<Key, seq<Item>>, keys: set<Key>, left: seq<Item>, k: Key)
    requires Lists(entryMap, keys, left) && k in keys
    ensures Lists(entryMap, keys - {k}, RemoveKey(left, k))
    ensures |RemoveKey(left, k)| + |entryMap[k]| == |left|
  {
    RemoveKeyLeaves(left, k);
  }

  lemma NothingListed(entryMap: map<Key, seq<Item>>, left: seq<Item>)
    requires Lists(entryMap, {}, left)
    ensures left == []
  {
    HeadIsIn(left);
  }

  /** The values collected so far and the items still listed are together all of them. */
  ghost predicate Collecting(entryMap: map<Key, seq<Item>>, keys: set<Key>, left: seq<Item>, values: seq<Handle>,
                             all: multiset<Handle>)
  {
    Lists(entryMap, keys, left) && multiset(values) + multiset(Handles(left)) == all
  }

  lemma CollectNext(entryMap: map<Key, seq<Item>>, keys: set<Key>, left: seq<Item>, values: seq<Handle>,
                    all: multiset<Handle>, k: Key)
    requires Collecting(entryMap, keys, left, values, all) && k in keys
    ensures k in entryMap
    ensures Collecting(entryMap, keys - {k}, RemoveKey(left, k), values + Handles(entryMap[k]), all)
  {
    RemoveKeyConserves(left, k);
    ListsNext(entryMap, keys, left, k);
    Moved(multiset(values), multiset(Handles(left)), multiset(Handles(RemoveKey(left, k))),
          multiset(Handles(entryMap[k])), all);
  }

  lemma CollectEnds(entryMap: map<Key, seq<Item>>, left: seq<Item>, values: seq<Handle>, all: multiset<Handle>)
    requires Collecting(entryMap, {}, left, values, all)
    ensures multiset(values) == all
  {
    NothingListed(entryMap, left);
  }

  lemma HeadIsIn(left: seq<Item>)
    ensures left != [] ==> left[0] in left
  {
  }

  // The ordered walk over the keys.

  /** The walk from `start` gets as far as `k`: every key up to it matches. */
  ghost predicate Walked(keys: set<Key>, start: Key, matching: Key -> bool, k: Key) {
    k in keys && !StringLess(k, start) &&
    forall j :: j in keys && !StringLess(j, start) && !StringLess(k, j) ==> matching(j)
  }

  predicate InKeyOrder(keys: seq<Key>) {
    forall i, j :: 0 <= i < j < |keys| ==> StringLess(keys[i], keys[j])
  }

  lemma OrderedKeysDiffer(keys: seq<Key>, i: nat, j: nat)
    requires InKeyOrder(keys) && i < j < |keys|
    ensures keys[i] != keys[j]
  {
    StringTrichotomy(keys[i], keys[j]);
  }

  method LeastName(names: set<Key>) returns (least: Key)
    requires names != {}
    ensures least in names && forall k :: k in names ==> !StringLess(k, least)
  {
    least :| least in names;
    var left := names - {least};
    StringTrichotomy(least, least);
    while left != {}
      invariant left <= names && least in names
      invariant forall k :: k in names && k !in left ==> !StringLess(k, least)
      decreases |left|
    {
      var k :| k in left;
      left := left - {k};
      StringTrichotomy(k, least);
      StringTrichotomy(k, k);
      if StringLess(k, least) {
        forall j | j in names && j !in left ensures !StringLess(j, k) {
          if j != k {
            NotAfterTransitive(k, least, j);
          }
        }
        least := k;
      }
    }
  }

  /** The keys walked so far and those still ahead. */
  ghost predicate HalfWalked(keys: set<Key>, start: Key, matching: Key -> bool, found: seq<Key>, ahead: set<Key>) {
    && InKeyOrder(found)
    && (forall k :: k in found ==> k in keys && !StringLess(k, start) && matching(k))
    && (forall k :: k in ahead ==> k in keys && !StringLess(k, start))
    && (forall k :: k in keys && !StringLess(k, start) ==> k in found || k in ahead)
    && (forall f, a :: f in found && a in ahead ==> StringLess(f, a))
  }

  lemma WalkNext(keys: set<Key>, start: Key, matching: Key -> bool, found: seq<Key>, ahead: set<Key>, k: Key)
    requires HalfWalked(keys, start, matching, found, ahead) && k in ahead && matching(k)
    requires forall j :: j in ahead ==> !StringLess(j, k)
    ensures HalfWalked(keys, start, matching, found + [k], ahead - {k})
  {
    forall f, a | f in found + [k] && a in ahead - {k} ensures StringLess(f, a) {
      StringTrichotomy(k, a);
    }
    forall i | 0 <= i < |found| ensures StringLess(found[i], k) {
      assert found[i] in found;
    }
  }

  /** The walk ends with exactly the keys it can reach. */
  lemma WalkEnds(keys: set<Key>, start: Key, matching: Key -> bool, found: seq<Key>, ahead: set<Key>)
    requires HalfWalked(keys, start, matching, found, ahead)
    requires forall a :: a in ahead ==> exists k :: k in ahead && !StringLess(a, k) && !matching(k)
    ensures forall k :: k in found <==> Walked(keys, start, matching, k)
  {
    forall k ensures k in found <==> Walked(keys, start, matching, k) {
      if k in found {
        forall j | j in keys && !StringLess(j, start) && !StringLess(k, j) ensures matching(j) {
          assert j in ahead ==> StringLess(k, j);
        }
      }
      if k in ahead {
        var j :| j in ahead && !StringLess(k, j) && !matching(j);
        assert !Walked(keys, start, matching, k);
      }
    }
  }

  method WalkKeys(keys: set<Key>, start: Key, matching: Key -> bool) returns (found: seq<Key>)
    ensures forall k :: k in found <==> Walked(keys, start, matching, k)
    ensures InKeyOrder(found)
  {
    found := [];
    var ahead := set k | k in keys && !StringLess(k, start);
    while ahead != {}
      invariant HalfWalked(keys, start, matching, found, ahead)
      decreases |ahead|
    {
      var k := LeastName(ahead);
      if !matching(k) {
        WalkEnds(keys, start, matching, found, ahead);
        return;
      }
      WalkNext(keys, start, matching, found, ahead, k);
      found := found + [k];
      ahead := ahead - {k};
    }
    WalkEnds(keys, start, matching, found, ahead);
  }

  /** The items of no listed key. */
  function RemoveKeys(items: seq<Item>, keys: seq<Key>): seq<Item> {
    if items == [] then []
    else if items[0].key in keys then RemoveKeys(items[1..], keys)
    else [items[0]] + RemoveKeys(items[1..], keys)
  }

  /** The handles of the listed keys, key by key, oldest first. */
  function ValuesOf(items: seq<Item>, keys: seq<Key>): seq<Handle> {
    if keys == [] then [] else
    ValuesOf(items, keys[..|keys| - 1]) + Handles(Deque(items, keys[|keys| - 1]))
  }

  lemma {:induction false} RemoveKeysNext(items: seq<Item>, keys: seq<Key>, k: Key)
    ensures RemoveKeys(items, keys + [k]) == RemoveKey(RemoveKeys(items, keys), k)
    ensures k !in keys ==> Deque(RemoveKeys(items, keys), k) == Deque(items, k)
    ensures keys == [] ==> RemoveKeys(items, keys) == items
  {
    if items != [] {
      RemoveKeysNext(items[1..], keys, k);
      var r := RemoveKeys(items[1..], keys);
      assert ([items[0]] + r)[1..] == r;
    }
  }

  lemma OneMoreKey(items: seq<Item>, keys: seq<Key>, n: nat)
    requires n < |keys| && InKeyOrder(keys)
    ensures var k, done := keys[n], RemoveKeys(items, keys[..n]);
            && RemoveKeys(items, keys[..n + 1]) == RemoveKey(done, k)
            && ValuesOf(items, keys[..n + 1]) == ValuesOf(items, keys[..n]) + Handles(Deque(done, k))
  {
    assert keys[..n + 1] == keys[..n] + [keys[n]] && keys[..n + 1][..n] == keys[..n];
    RemoveKeysNext(items, keys[..n], keys[n]);
    forall i | 0 <= i < n ensures keys[i] != keys[n] {
      OrderedKeysDiffer(keys, i, n);
    }
  }

  /** Clearing keys hands back exactly the handles it removes. */
  lemma {:induction false} RemoveKeysConserves(items: seq<Item>, keys: seq<Key>)
    requires InKeyOrder(keys)
    ensures multiset(Handles(items)) == multiset(Handles(RemoveKeys(items, keys))) + multiset(ValuesOf(items, keys))
    decreases |keys|
  {
    if keys == [] {
      RemoveKeysNext(items, [], "");
    } else {
      var n := |keys| - 1;
      RemoveKeysConserves(items, keys[..n]);
      assert keys[..n + 1] == keys;
      OneMoreKey(items, keys, n);
      var done := RemoveKeys(items, keys[..n]);
      RemoveKeyConserves(done, keys[n]);
      Moved(multiset(ValuesOf(items, keys[..n])), multiset(Handles(done)), multiset(Handles(RemoveKey(done, keys[n]))),
            multiset(Handles(Deque(done, keys[n]))), multiset(Handles(items)));
    }
  }

  class ExclusiveMultiLruCache {
    const maxEntries: nat
    const timeout: nat
    var total: nat
    var entryMap: map<Key, seq<Item>>
    var lruList: seq<Node>
    var nextNode: nat
    ghost var items: seq<Item>

    ghost predicate Consistent() reads this {
      Agree(entryMap, lruList, total, items) && forall x :: x in items ==> x.node < nextNode
    }

    ghost predicate Valid() reads this {
      Consistent() && (maxEntries > 0 ==> total <= maxEntries)
    }

    constructor (maxEntries: nat, timeout: nat)
      ensures Valid() && items == []
    {
      this.maxEntries, this.timeout := maxEntries, timeout;
      total, entryMap, lruList, nextNode, items := 0, map[], [], 0, [];
    }

    method DeleteFirstEntry(k: Key) returns (handle: Handle)
      requires Consistent() && k in entryMap
      modifies this
      ensures old(Deque(items, k)) != []
      ensures Consistent() && items == RemoveOldest(old(items), k) && total == old(total) - 1
      ensures handle == old(Deque(items, k))[0].handle && nextNode == old(nextNode)
    {
      AgreeAfterRemoval(entryMap, lruList, total, items, k);
      RemoveOldestMembers(items, k);
      var entries := entryMap[k];
      handle := entries[0].handle;
      lruList := EraseNode(lruList, entries[0].node);
      if |entries| == 1 {
        entryMap := entryMap - {k};
      } else {
        entryMap := entryMap[k := entries[1..]];
      }
      total := total - 1;
      items := RemoveOldest(items, k);
    }

    method Put(key: Key, handle: Handle, now: int) returns (evicted: Option<Handle>)
      requires Valid()
      modifies this
      ensures Valid()
      ensures (items, if evicted.Some? then [evicted.value] else []) ==
              MultiLru.Put(old(items), Item(key, handle, now, old(nextNode)), maxEntries)
    {
      evicted := None;
      PushFront(key, handle, now);
      if maxEntries > 0 && total > maxEntries {
        var h := EvictBack();
        evicted := Some(h);
      }
    }

    /** The overflow half of `Put`: the key at the list's back gives up its first entry. */
    method EvictBack() returns (handle: Handle)
      requires Consistent() && items != []
      modifies this
      ensures Consistent() && total == old(total) - 1
      ensures var n := |old(items)| - 1;
              items == old(items)[..n] && handle == old(items)[n].handle
    {
      OverflowIsRemoval(items);
      var stale := lruList[|lruList| - 1].key;
      assert KeyInStep(entryMap, items, stale);
      handle := DeleteFirstEntry(stale);
    }

    /** The insertion half of `Put`, which may exceed the limit by one. */
    method PushFront(key: Key, handle: Handle, now: int)
      requires Consistent()
      modifies this
      ensures Consistent() && items == [Item(key, handle, now, old(nextNode))] + old(items)
      ensures total == old(total) + 1
    {
      ghost var item := Item(key, handle, now, nextNode);
      PrependAgrees(entryMap, lruList, total, items, item);
      lruList := [Node(nextNode, key)] + lruList;
      entryMap := entryMap[key := (if key in entryMap then entryMap[key] else []) + [Item(key, handle, now, nextNode)]];
      total := total + 1;
      nextNode := nextNode + 1;
      items := [item] + items;
    }

    method GetAndPop(k: Key, now: int) returns (evicted: seq<Handle>, target: Option<Handle>)
      requires Valid()
      modifies this
      ensures Valid() && Popped(items, evicted, target) == MultiLru.GetAndPop(old(items), k, now, timeout)
    {
      evicted, target := [], None;
      assert KeyInStep(entryMap, items, k);
      ghost var items0 := items;
      if k !in entryMap {
        return;
      }
      if timeout > 0 {
        evicted := EvictExpired(k, now);
        assert KeyInStep(entryMap, items, k);
        if k !in entryMap {
          return;
        }
      }
      var h := DeleteFirstEntry(k);
      target := Some(h);
    }

    method EvictExpired(k: Key, now: int) returns (evicted: seq<Handle>)
      requires Valid()
      modifies this
      ensures Valid() && (items, evicted) == PopExpired(old(items), k, now, timeout)
    {
      evicted := [];
      ghost var result := PopExpired(items, k, now, timeout);
      assert KeyInStep(entryMap, items, k);
      while k in entryMap && Expired(entryMap[k][0], now, timeout)
        invariant Valid() && KeyInStep(entryMap, items, k)
        invariant PopExpired(items, k, now, timeout).0 == result.0
        invariant evicted + PopExpired(items, k, now, timeout).1 == result.1
        decreases total
      {
        ghost var before := items;
        var h := DeleteFirstEntry(k);
        assert PopExpired(before, k, now, timeout).1 == [h] + PopExpired(items, k, now, timeout).1;
        evicted := evicted + [h];
        assert KeyInStep(entryMap, items, k);
      }
      assert PopExpired(items, k, now, timeout) == (items, []);
      assert evicted + [] == evicted;
    }

    /** Hand back every value, key by key. */
    method ClearAndGetValues() returns (values: seq<Handle>)
      requires Valid()
      modifies this
      ensures Valid() && items == [] && multiset(values) == multiset(old(Handles(items)))
    {
      values := [];
      ghost var all := multiset(Handles(items));
      var keys := entryMap.Keys;
      ghost var left := items;
      AllListed(entryMap, lruList, total, items);
      while keys != {}
        invariant Collecting(entryMap, keys, left, values, all)
        decreases |keys|
      {
        var k :| k in keys;
        CollectNext(entryMap, keys, left, values, all, k);
        values := values + Handles(entryMap[k]);
        keys := keys - {k};
        left := RemoveKey(left, k);
      }
      CollectEnds(entryMap, left, values, all);
      total, entryMap, lruList := 0, map[], [];
      items := [];
    }

    /** Hand back the values of one key that is present. */
    method ClearKey(k: Key) returns (values: seq<Handle>)
      requires Valid() && k in entryMap
      modifies this
      ensures Valid() && items == RemoveKey(old(items), k) && values == Handles(old(Deque(items, k)))
      ensures nextNode == old(nextNode)
    {
      assert KeyInStep(entryMap, items, k);
      ghost var items0, deque, taken := items, Deque(items, k), [];
      values := [];
      while k in entryMap
        invariant Consistent() && KeyInStep(entryMap, items, k) && (maxEntries > 0 ==> total <= maxEntries)
        invariant deque == taken + Deque(items, k) && values == Handles(taken)
        invariant RemoveKey(items, k) == RemoveKey(items0, k) && nextNode == old(nextNode)
        decreases total
      {
        DrainStep(deque, taken, items, k);
        taken := taken + [Deque(items, k)[0]];
        var h := DeleteFirstEntry(k);
        values := values + [h];
        assert KeyInStep(entryMap, items, k);
      }
      RemoveAbsentKey(items, k);
      assert taken + [] == taken;
    }

    /**
      Walk the ordered keys from `start` on, stop at the first that does not match, then hand
      back the values of the walked keys. `keys` names them, in order.
     */
    method ClearFrom(start: Key, matching: Key -> bool) returns (values: seq<Handle>, ghost keys: seq<Key>)
      requires Valid()
      modifies this
      ensures Valid() && nextNode == old(nextNode)
      ensures forall k :: k in keys <==> Walked(old(entryMap).Keys, start, matching, k)
      ensures InKeyOrder(keys)
      ensures items == RemoveKeys(old(items), keys) && values == ValuesOf(old(items), keys)
    {
      var found := WalkKeys(entryMap.Keys, start, matching);
      values, keys := [], found;
      ghost var items0 := items;
      assert found[..0] == [] && forall k :: k in found ==> k in entryMap;
      RemoveKeysNext(items, [], start);
      for n := 0 to |found|
        invariant Valid() && nextNode == old(nextNode)
        invariant items == RemoveKeys(items0, found[..n]) && values == ValuesOf(items0, found[..n])
        invariant forall i :: n <= i < |found| ==> found[i] in entryMap
      {
        var k := found[n];
        OneMoreKey(items0, found, n);
        ghost var before := items;
        ghost var map0 := entryMap;
        assert forall i :: n < i < |found| ==> KeyInStep(entryMap, items, found[i]);
        var vs := ClearKey(k);
        values := values + vs;
        forall i | n < i < |found| ensures found[i] in entryMap {
          OrderedKeysDiffer(found, n, i);
          assert KeyInStep(map0, before, found[i]);
          RemoveKeyLeaves(before, k);
          assert KeyInStep(entryMap, items, found[i]);
        }
      }
      assert found[..|found|] == found;
    }

    /** The recount of the debug check always agrees with the entry count. */
    method Verify() returns (ok: bool)
      requires Valid()
      ensures ok
    {
      var count := 0;
      var keys := entryMap.Keys;
      ghost var left := items;
      AllListed(entryMap, lruList, total, items);
      while keys != {}
        invariant Lists(entryMap, keys, left)
        invariant count + |left| == |items|
        decreases |keys|
      {
        var k :| k in keys;
        assert KeyInStep(entryMap, items, k);
        if entryMap[k] == [] {
          return false;
        }
        ListsNext(entryMap, keys, left, k);
        count := count + |entryMap[k]|;
        keys := keys - {k};
        left := RemoveKey(left, k);
      }
      NothingListed(entryMap, left);
      if count != total {
        return false;
      }
      return |lruList| == total;
    }
  }

  lemma Moved(values: multiset<Handle>, left: multiset<Handle>, rest: multiset<Handle>,
              taken: multiset<Handle>, all: multiset<Handle>)
    requires values + left == all && left == rest + taken
    ensures (values + taken) + rest == all
  {
  }

  lemma {:induction false} RemoveKeyLeaves(items: seq<Item>, k: Key)
    ensures |RemoveKey(items, k)| + |Deque(items, k)| == |items|
    ensures forall other :: other != k ==> Deque(RemoveKey(items, k), other) == Deque(items, other)
    ensures forall x :: x in RemoveKey(items, k) <==> x in items && x.key != k
  {
    if items != [] {
      var rest := items[1..];
      RemoveKeyLeaves(rest, k);
      if items[0].key != k {
        assert RemoveKey(items, k)[1..] == RemoveKey(rest, k);
      }
    }
  }

  lemma {:induction false} RemoveOldestKeepsOthers(items: seq<Item>, k: Key)
    requires Deque(items, k) != []
    ensures RemoveKey(RemoveOldest(items, k), k) == RemoveKey(items, k)
  {
    var rest := items[1..];
    if Deque(rest, k) != [] {
      RemoveOldestKeepsOthers(rest, k);
      assert ([items[0]] + RemoveOldest(rest, k))[1..] == RemoveOldest(rest, k);
    }
  }

  /** Taking one more value off the key's deque. */
  lemma DrainStep(deque: seq<Item>, taken: seq<Item>, items: seq<Item>, k: Key)
    requires Deque(items, k) != [] && deque == taken + Deque(items, k)
    ensures var x := Deque(items, k)[0];
            && deque == (taken + [x]) + Deque(RemoveOldest(items, k), k)
            && Handles(taken + [x]) == Handles(taken) + [x.handle]
    ensures RemoveKey(RemoveOldest(items, k), k) == RemoveKey(items, k)
  {
    var d := Deque(items, k);
    RemoveOldestDeques(items, k, k);
    RemoveOldestKeepsOthers(items, k);
    HandlesSnoc(taken, d[0]);
    assert taken + d == (taken + [d[0]]) + d[1..];
  }

  lemma {:induction false} RemoveAbsentKey(items: seq<Item>, k: Key)
    requires Deque(items, k) == []
    ensures RemoveKey(items, k) == items
  {
    if items != [] {
      RemoveAbsentKey(items[1..], k);
    }
  }

  lemma PrependAgrees(entryMap: map<Key, seq<Item>>, lruList: seq<Node>, total: nat, items: seq<Item>, item: Item)
    requires Agree(entryMap, lruList, total, items) && forall x :: x in items ==> x.node < item.node
    ensures Agree(entryMap[item.key := (if item.key in entryMap then entryMap[item.key] else []) + [item]],
                  [Node(item.node, item.key)] + lruList, total + 1, [item] + items)
  {
    var all := [item] + items;
    var entryMap' := entryMap[item.key := (if item.key in entryMap then entryMap[item.key] else []) + [item]];
    forall k ensures KeyInStep(entryMap', all, k) {
      assert KeyInStep(entryMap, items, k);
      PrependInStep(entryMap, items, item, k);
    }
    assert NodesOf(all) == [Node(item.node, item.key)] + NodesOf(items);
    NewNodeDistinct(items, item);
  }

  lemma PrependInStep(entryMap: map<Key, seq<Item>>, items: seq<Item>, item: Item, k: Key)
    requires KeyInStep(entryMap, items, k)
    ensures KeyInStep(entryMap[item.key := (if item.key in entryMap then entryMap[item.key] else []) + [item]],
                      [item] + items, k)
  {
    assert ([item] + items)[1..] == items;
  }

  lemma NewNodeDistinct(items: seq<Item>, item: Item)
    requires DistinctNodes(items) && forall x :: x in items ==> x.node < item.node
    ensures DistinctNodes([item] + items)
  {
    forall j | 0 <= j < |items| ensures items[j].node != item.node {
      assert items[j] in items;
    }
  }
}
