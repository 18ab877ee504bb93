/** The stock in-memory storage: an LRU map bounded by entry count, with tag validation on top. */
module StockLru {
  import opened Blocks
  import opened Sequences

  datatype Timed = Timed(entry: CacheEntry, timestamp: int)

  /** Front of `order` is the most recently used; a limit of 0 means no limit. */
  datatype LruState = LruState(maxEntries: nat, timeout: nat, order: seq<Block>, entries: map<Block, Timed>) {
    ghost predicate Inv() {
      && NoDup(order) && Elems(order) == entries.Keys
      && (maxEntries > 0 ==> |order| <= maxEntries)
    }

    function Drop(key: Block): LruState {
      this.(order := Without(order, key), entries := entries - {key})
    }

    function Put(key: Block, entry: CacheEntry, now: int): LruState {
      var order' := [key] + Without(order, key);
      var entries' := entries[key := Timed(entry, now)];
      if maxEntries > 0 && |order'| > maxEntries then
        var stale := order'[|order'| - 1];
        this.(order := order'[..|order'| - 1], entries := entries' - {stale})
      else
        this.(order := order', entries := entries')
    }

    function Delete(key: Block): (LruState, bool) {
      if key in entries then (Drop(key), true) else (this, false)
    }

    function Find(key: Block, now: int): (LruState, Option<CacheEntry>) {
      if key !in entries then (this, None)
      else if timeout > 0 && now - entries[key].timestamp > timeout then (Drop(key), None)
      else (this.(order := [key] + Without(order, key)), Some(entries[key].entry))
    }

    /** A lookup that also validates the tag, deleting a stale entry. */
    function Get(key: Block, expected: string, now: int): (LruState, Option<CacheEntry>) {
      var (s, found) := Find(key, now);
      if found.None? then (s, None)
      else if !ValidTag(found.value.tag, expected) then (s.Delete(key).0, None)
      else (s, found)
    }

    function FileKeys(fname: string): set<Block> {
      set k | k in entries && k.fname == fname
    }

    function ClearFile(fname: string): LruState {
      var doomed := FileKeys(fname);
      this.(order := Excluding(order, doomed), entries := entries - doomed)
    }

    function Clear(): LruState {
      this.(order := [], entries := map[])
    }
  }

  lemma PutInv(s: LruState, key: Block, entry: CacheEntry, now: int)
    requires s.Inv()
    ensures s.Put(key, entry, now).Inv()
    ensures key in s.Put(key, entry, now).entries
    ensures s.Put(key, entry, now).entries.Keys <= s.entries.Keys + {key}
  {
    var order', entries' := [key] + Without(s.order, key), s.entries[key := Timed(entry, now)];
    MovedToFront(s.order, key);
    assert Elems(order') == entries'.Keys;
    if s.maxEntries > 0 && |order'| > s.maxEntries {
      BackDropped(order', entries', key);
    }
  }

  /** Dropping the back of the list and its entry, when the front is `key`. */
  lemma BackDropped(order: seq<Block>, entries: map<Block, Timed>, key: Block)
    requires NoDup(order) && |order| > 1 && order[0] == key && Elems(order) == entries.Keys
    ensures var n := |order| - 1;
            && NoDup(order[..n]) && Elems(order[..n]) == (entries - {order[n]}).Keys && key in entries - {order[n]}
  {
    WithoutLast(order);
    assert order[0] in Elems(order);
  }

  /** Erasing the old entry first makes no difference to the insertion. */
  lemma Reinserted(s: LruState, key: Block, timed: Timed)
    requires s.Inv()
    ensures (s.entries - {key})[key := timed] == s.entries[key := timed]
    ensures key !in s.entries ==> Without(s.order, key) == s.order
  {
    WithoutElems(s.order, key);
  }

  lemma DropInv(s: LruState, key: Block)
    requires s.Inv()
    ensures s.Drop(key).Inv() && Without(s.Drop(key).order, key) == s.Drop(key).order
  {
    WithoutElems(s.order, key);
    WithoutElems(Without(s.order, key), key);
  }

  lemma FindInv(s: LruState, key: Block, now: int)
    requires s.Inv()
    ensures var (r, hit) := s.Find(key, now);
            && r.Inv() && Without(r.order, key) == Without(s.order, key)
            && r.entries == (if hit.None? then s.entries - {key} else s.entries)
            && (hit.Some? ==> key in s.entries && hit.value == s.entries[key].entry)
            && (hit.Some? <==> key in s.entries && (s.timeout == 0 || now - s.entries[key].timestamp <= s.timeout))
  {
    if key in s.entries {
      if s.timeout > 0 && now - s.entries[key].timestamp > s.timeout {
        DropInv(s, key);
      } else {
        MovedToFront(s.order, key);
      }
    } else {
      assert s.entries - {key} == s.entries;
    }
  }

  lemma DeleteInv(s: LruState, key: Block)
    requires s.Inv()
    ensures s.Delete(key).0.Inv() && s.Delete(key).0.entries == s.entries - {key}
  {
    DropInv(s, key);
    assert key !in s.entries ==> s.entries - {key} == s.entries;
  }

  lemma GetInv(s: LruState, key: Block, expected: string, now: int)
    requires s.Inv()
    ensures var (r, hit) := s.Get(key, expected, now);
            && r.Inv()
            && r.entries == (if hit.None? then s.entries - {key} else s.entries)
            && (hit.Some? ==> key in s.entries && hit.value == s.entries[key].entry && ValidTag(hit.value.tag, expected))
            && (hit.Some? <==>
                  && key in s.entries && (expected == "" || s.entries[key].entry.tag == expected)
                  && (s.timeout == 0 || now - s.entries[key].timestamp <= s.timeout))
  {
    FindInv(s, key, now);
    DeleteInv(s.Find(key, now).0, key);
  }

  lemma ClearFileInv(s: LruState, fname: string)
    requires s.Inv()
    ensures s.ClearFile(fname).Inv()
  {
    ExcludingElems(s.order, s.FileKeys(fname));
  }

  // The ordered scan of one file's blocks.

  lemma NotLessTransitive(a: Block, b: Block, c: Block)
    requires !BlockLess(b, a) && !BlockLess(c, b)
    ensures !BlockLess(c, a)
  {
    StringTrichotomy(a.fname, b.fname);
    StringTrichotomy(b.fname, c.fname);
    StringTrichotomy(a.fname, c.fname);
    if StringLess(a.fname, b.fname) && StringLess(b.fname, c.fname) {
      StringTransitive(a.fname, b.fname, c.fname);
    }
  }

  /** The first key of an ordered map's iteration. */
  method LeastKey(keys: set<Block>) returns (least: Block)
    requires keys != {}
    ensures least in keys && forall k :: k in keys ==> !BlockLess(k, least)
  {
    least :| least in keys;
    var left := keys - {least};
    StringTrichotomy(least.fname, least.fname);
    while left != {}
      invariant left <= keys && least in keys && least !in left
      invariant forall k :: k in keys && k !in left ==> !BlockLess(k, least)
      decreases |left|
    {
      var k :| k in left;
      left := left - {k};
      if BlockLess(k, least) {
        BecomesLeast(keys - left - {k}, least, k);
        least := k;
      }
    }
  }

  lemma BecomesLeast(seen: set<Block>, least: Block, k: Block)
    requires BlockLess(k, least) && forall j :: j in seen ==> !BlockLess(j, least)
    ensures forall j :: j in seen + {k} ==> !BlockLess(j, k)
  {
    StringTrichotomy(k.fname, least.fname);
    StringTrichotomy(k.fname, k.fname);
    forall j | j in seen ensures !BlockLess(j, k) {
      assert !BlockLess(least, k);
      NotLessTransitive(k, least, j);
    }
  }

  /** Blocks of the file come first among the keys from (fname, 0, 0) on. */
  lemma FileBlocksComeFirst(fname: string, least: Block, k: Block)
    requires !BlockLess(least, Block(fname, 0, 0)) && !BlockLess(k, least) && k.fname == fname
    ensures least.fname == fname
  {
    StringTrichotomy(least.fname, fname);
  }

  /** The cache with the keys of `gone` already deleted. */
  ghost function Partly(s: LruState, gone: set<Block>): LruState {
    s.(order := Excluding(s.order, gone), entries := s.entries - gone)
  }

  lemma PartlyNext(s: LruState, all: set<Block>, doomed: set<Block>, k: Block)
    requires k in doomed && doomed <= all <= s.entries.Keys
    ensures Partly(s, all - doomed).Delete(k).0 == Partly(s, all - (doomed - {k}))
  {
    var gone := all - doomed;
    assert all - (doomed - {k}) == gone + {k};
    ExcludingOneMore(s.order, gone, k);
    assert s.entries - gone - {k} == s.entries - (gone + {k});
  }

  lemma BlockTrichotomy(a: Block, b: Block)
    ensures a == b ==> !BlockLess(a, b)
    ensures a != b ==> (BlockLess(a, b) <==> !BlockLess(b, a))
  {
    StringTrichotomy(a.fname, b.fname);
  }

  predicate InBlockOrder(turns: seq<Block>) {
    forall i, j :: 0 <= i < j < |turns| ==> BlockLess(turns[i], turns[j])
  }

  predicate Stale(s: LruState, key: Block, now: int)
    requires key in s.entries
  {
    s.timeout > 0 && now - s.entries[key].timestamp > s.timeout
  }

  /** The entries that are fresh at their turn; the clock is read once per turn. */
  ghost function FreshAtTurn(s: LruState, turns: seq<Block>, clock: nat -> int): seq<(Block, CacheEntry)>
    requires forall k :: k in turns ==> k in s.entries
  {
    if turns == [] then []
    else
      var n := |turns| - 1;
      var k := turns[n];
      FreshAtTurn(s, turns[..n], clock) + (if Stale(s, k, clock(n)) then [] else [(k, s.entries[k].entry)])
  }

  /** `done` had their turns, in key order, and `left` are all behind them. */
  ghost predicate HalfDrained(keys: set<Block>, done: seq<Block>, left: set<Block>) {
    InBlockOrder(done) && Elems(done) + left == keys && forall d, k :: d in done && k in left ==> BlockLess(d, k)
  }

  lemma DrainNext(keys: set<Block>, done: seq<Block>, left: set<Block>, k: Block)
    requires HalfDrained(keys, done, left) && k in left && forall j :: j in left ==> !BlockLess(j, k)
    ensures HalfDrained(keys, done + [k], left - {k})
  {
    forall d, j | d in done + [k] && j in left - {k} ensures BlockLess(d, j) {
      BlockTrichotomy(k, j);
    }
    forall i | 0 <= i < |done| ensures BlockLess(done[i], k) {
      assert done[i] in done;
    }
    assert Elems(done + [k]) == Elems(done) + {k};
  }

  /** Everything a drain hands over was cached, and nothing twice. */
  lemma {:induction false} FreshWasCached(s: LruState, turns: seq<Block>, clock: nat -> int)
    requires InBlockOrder(turns) && forall k :: k in turns ==> k in s.entries
    ensures forall p :: p in FreshAtTurn(s, turns, clock) ==> p.0 in turns && s.entries[p.0].entry == p.1
    ensures DistinctKeys(FreshAtTurn(s, turns, clock))
  {
    if turns != [] {
      var n := |turns| - 1;
      FreshWasCached(s, turns[..n], clock);
      var rest := FreshAtTurn(s, turns[..n], clock);
      forall i | 0 <= i < |rest| ensures rest[i].0 != turns[n] {
        assert rest[i] in rest;
        var j :| 0 <= j < n && turns[j] == rest[i].0;
        BlockTrichotomy(turns[j], turns[n]);
      }
      DistinctAppend(rest, (turns[n], s.entries[turns[n]].entry));
    }
  }

  predicate DistinctKeys(taken: seq<(Block, CacheEntry)>) {
    forall i, j :: 0 <= i < j < |taken| ==> taken[i].0 != taken[j].0
  }

  lemma DistinctAppend(taken: seq<(Block, CacheEntry)>, e: (Block, CacheEntry))
    requires DistinctKeys(taken) && forall i :: 0 <= i < |taken| ==> taken[i].0 != e.0
    ensures DistinctKeys(taken + [e])
  {
  }

  /** The drain's progress: the turns taken, the entries left, and what was handed over. */
  ghost predicate Draining(s: LruState, turns: seq<Block>, left: map<Block, Timed>, taken: seq<(Block, CacheEntry)>,
                           clock: nat -> int)
  {
    && HalfDrained(s.entries.Keys, turns, left.Keys)
    && (forall k :: k in turns ==> k in s.entries)
    && (forall k :: k in left ==> k in s.entries && left[k] == s.entries[k])
    && taken == FreshAtTurn(s, turns, clock)
  }

  lemma FreshNext(s: LruState, turns: seq<Block>, clock: nat -> int, k: Block)
    requires k in s.entries && forall j :: j in turns ==> j in s.entries
    ensures forall j :: j in turns + [k] ==> j in s.entries
    ensures FreshAtTurn(s, turns + [k], clock) ==
            FreshAtTurn(s, turns, clock) + (if Stale(s, k, clock(|turns|)) then [] else [(k, s.entries[k].entry)])
  {
    assert (turns + [k])[..|turns|] == turns;
  }

  lemma DrainStarts(s: LruState, clock: nat -> int)
    ensures Draining(s, [], s.entries, [], clock)
  {
    assert Elems<Block>([]) == {};
  }

  lemma DrainStep(s: LruState, turns: seq<Block>, left: map<Block, Timed>, taken: seq<(Block, CacheEntry)>,
                  clock: nat -> int, k: Block)
    requires Draining(s, turns, left, taken, clock) && k in left && forall j :: j in left.Keys ==> !BlockLess(j, k)
    ensures k in s.entries && left[k] == s.entries[k]
    ensures Draining(s, turns + [k], left - {k},
                     if Stale(s, k, clock(|turns|)) then taken else taken + [(k, left[k].entry)], clock)
  {
    DrainNext(s.entries.Keys, turns, left.Keys, k);
    FreshNext(s, turns, clock, k);
    assert (left - {k}).Keys == left.Keys - {k};
  }

  lemma DrainEnds(s: LruState, turns: seq<Block>, left: map<Block, Timed>, taken: seq<(Block, CacheEntry)>,
                  clock: nat -> int)
    requires Draining(s, turns, left, taken, clock) && left.Keys == {}
    ensures InBlockOrder(turns) && Elems(turns) == s.entries.Keys && left == map[]
  {
  }

  /** An entry is handed over exactly when, at the reading made for it, it is not older than the timeout. */
  lemma {:induction false} HandedOverIff(s: LruState, turns: seq<Block>, clock: nat -> int, i: nat)
    requires InBlockOrder(turns) && (forall k :: k in turns ==> k in s.entries) && i < |turns|
    ensures var k := turns[i];
            (k, s.entries[k].entry) in FreshAtTurn(s, turns, clock) <==>
            s.timeout == 0 || clock(i) - s.entries[k].timestamp <= s.timeout
  {
    var n := |turns| - 1;
    var k, last := turns[i], turns[n];
    FreshWasCached(s, turns[..n], clock);
    if i < n {
      HandedOverIff(s, turns[..n], clock, i);
      BlockTrichotomy(k, last);
    } else {
      assert k !in turns[..n] by {
        forall j | 0 <= j < n ensures turns[j] != k {
          BlockTrichotomy(turns[j], k);
        }
      }
    }
  }

  /** Without a timeout nothing is left out. */
  lemma {:induction false} NoTimeoutTakesAll(s: LruState, turns: seq<Block>, clock: nat -> int, k: Block)
    requires s.timeout == 0 && k in turns && forall j :: j in turns ==> j in s.entries
    ensures (k, s.entries[k].entry) in FreshAtTurn(s, turns, clock)
  {
    var n := |turns| - 1;
    if turns[n] != k {
      assert k in turns[..n];
      NoTimeoutTakesAll(s, turns[..n], clock, k);
    }
  }

  class SharedValueLruCache {
    const maxEntries: nat
    const timeout: nat
    var entryMap: map<Block, Timed>
    var lruList: seq<Block>

    ghost predicate Valid() reads this {
      View().Inv()
    }

    ghost function View(): LruState reads this {
      LruState(maxEntries, timeout, lruList, entryMap)
    }

    constructor (maxEntries: nat, timeout: nat)
      ensures Valid() && View() == LruState(maxEntries, timeout, [], map[])
    {
      this.maxEntries, this.timeout, entryMap, lruList := maxEntries, timeout, map[], [];
    }

    method Put(key: Block, entry: CacheEntry, now: int)
      requires Valid()
      modifies this
      ensures Valid() && View() == old(View()).Put(key, entry, now)
    {
      PutInv(View(), key, entry, now);
      PushFront(key, Timed(entry, now));
      if maxEntries > 0 && |lruList| > maxEntries {
        entryMap := entryMap - {lruList[|lruList| - 1]};
        lruList := lruList[..|lruList| - 1];
      }
    }

    /** The insertion half of `Put`, which may exceed the limit by one. */
    method PushFront(key: Block, timed: Timed)
      requires Valid()
      modifies this
      ensures lruList == [key] + Without(old(lruList), key) && entryMap == old(entryMap)[key := timed]
    {
      Reinserted(View(), key, timed);
      if key in entryMap {
        entryMap := entryMap - {key};
        lruList := Without(lruList, key);
      }
      lruList := [key] + lruList;
      entryMap := entryMap[key := timed];
    }

    method Delete(key: Block) returns (found: bool)
      requires Valid()
      modifies this
      ensures Valid() && (View(), found) == old(View()).Delete(key)
    {
      if key !in entryMap {
        return false;
      }
      DeleteInv(View(), key);
      lruList := Without(lruList, key);
      entryMap := entryMap - {key};
      return true;
    }

    method Get(key: Block, now: int) returns (hit: Option<CacheEntry>)
      requires Valid()
      modifies this
      ensures Valid() && (View(), hit) == old(View()).Find(key, now)
    {
      FindInv(View(), key, now);
      if key !in entryMap {
        return None;
      }
      if timeout > 0 && now - entryMap[key].timestamp > timeout {
        var _ := Delete(key);
        return None;
      }
      lruList := [key] + Without(lruList, key);
      return Some(entryMap[key].entry);
    }

    method Clear()
      modifies this
      ensures Valid() && View() == old(View()).Clear()
    {
      entryMap, lruList := map[], [];
    }

    /** Walk the ordered keys from (fname, 0, 0), stop at the first block of another file, then delete. */
    method ClearFile(fname: string)
      requires Valid()
      modifies this
      ensures Valid() && View() == old(View()).ClearFile(fname)
    {
      var doomed := CollectFileKeys(fname);
      ghost var s0 := View();
      ghost var all := s0.FileKeys(fname);
      ExcludingNothing(lruList);
      assert all - doomed == {} && s0.entries - {} == s0.entries && all <= s0.entries.Keys;
      while doomed != {}
        invariant Valid() && doomed <= all
        invariant View() == Partly(s0, all - doomed)
        decreases |doomed|
      {
        var k :| k in doomed;
        PartlyNext(s0, all, doomed, k);
        var _ := Delete(k);
        doomed := doomed - {k};
      }
      assert all - {} == all;
    }

    /** Drain the cache in key order, dropping what has expired when its turn comes. */
    method Take(clock: nat -> int) returns (taken: seq<(Block, CacheEntry)>, ghost turns: seq<Block>)
      requires Valid()
      modifies this
      ensures Valid() && View() == old(View()).Clear()
      ensures InBlockOrder(turns) && Elems(turns) == old(entryMap).Keys
      ensures taken == FreshAtTurn(old(View()), turns, clock)
    {
      taken, turns := [], [];
      var n: nat := 0;
      ghost var s := View();
      DrainStarts(s, clock);
      while entryMap.Keys != {}
        invariant Valid() && |turns| == n && Draining(s, turns, entryMap, taken, clock)
        decreases |entryMap.Keys|
      {
        ghost var left := entryMap;
        var k, timed := PopFirst();
        DrainStep(s, turns, left, taken, clock, k);
        if !(timeout > 0 && clock(n) - timed.timestamp > timeout) {
          taken := taken + [(k, timed.entry)];
        }
        turns := turns + [k];
        n := n + 1;
      }
      DrainEnds(s, turns, entryMap, taken, clock);
      HasElems(lruList);
    }

    /** Take the first entry of the ordered map out of both structures. */
    method PopFirst() returns (k: Block, timed: Timed)
      requires Valid() && entryMap.Keys != {}
      modifies this
      ensures Valid() && View() == old(View()).Drop(k)
      ensures k in old(entryMap) && timed == old(entryMap)[k] && |entryMap.Keys| < |old(entryMap).Keys|
      ensures forall j :: j in old(entryMap).Keys ==> !BlockLess(j, k)
    {
      k := LeastKey(entryMap.Keys);
      timed := entryMap[k];
      ghost var keys := entryMap.Keys;
      var _ := Delete(k);
      assert entryMap.Keys == keys - {k};
    }

    method CollectFileKeys(fname: string) returns (doomed: set<Block>)
      requires Valid()
      ensures doomed == View().FileKeys(fname)
    {
      var from := Block(fname, 0, 0);
      var rest := set k | k in entryMap && !BlockLess(k, from);
      doomed := {};
      while rest != {}
        invariant doomed <= View().FileKeys(fname) && rest !! doomed
        invariant forall k :: k in rest ==> k in entryMap && !BlockLess(k, from)
        invariant View().FileKeys(fname) <= doomed + rest
        decreases |rest|
      {
        var k := LeastKey(rest);
        if k.fname != fname {
          forall j | j in rest ensures j.fname != fname {
            if j.fname == fname {
              FileBlocksComeFirst(fname, k, j);
            }
          }
          break;
        }
        doomed := doomed + {k};
        rest := rest - {k};
      }
    }
  }

  /** The storage backend over that cache. */
  class ExtensionBoundedStorage {
    const lru: SharedValueLruCache

    constructor (maxEntries: nat, timeout: nat)
      ensures lru.Valid() && fresh(lru) && lru.View() == LruState(maxEntries, timeout, [], map[])
    {
      lru := new SharedValueLruCache(maxEntries, timeout);
    }

    method Put(key: Block, chunk: Chunk, tag: string, now: int)
      requires lru.Valid()
      modifies lru
      ensures lru.Valid() && lru.View() == old(lru.View()).Put(key, CacheEntry(chunk.bytes, tag), now)
    {
      lru.Put(key, CacheEntry(chunk.bytes, tag), now);
    }

    method Get(key: Block, expected: string, now: int) returns (hit: Option<CacheEntry>)
      requires lru.Valid()
      modifies lru
      ensures lru.Valid() && (lru.View(), hit) == old(lru.View()).Get(key, expected, now)
    {
      hit := lru.Get(key, now);
      if hit.None? {
        return None;
      }
      if !ValidTag(hit.value.tag, expected) {
        var _ := lru.Delete(key);
        return None;
      }
    }
  }
}
