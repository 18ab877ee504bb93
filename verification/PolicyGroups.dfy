/** One policy group of the byte-bounded storage, as a value: entries, byte accounting and policy order. */
module PolicyGroups {
  import opened Blocks
  import opened Grid
  import opened Sequences
  import opened Policies

  datatype Charged = Charged(entry: CacheEntry, bytes: nat, insertedAt: int)

  /** A chunk is charged for what was allocated for it, or for its valid bytes when that is not recorded. */
  function Charge(chunk: Chunk): nat {
    if chunk.capacity > 0 then chunk.capacity else |chunk.bytes|
  }

  function PageRoundUp(length: nat, page: nat): (r: nat)
    requires page > 0
    ensures r >= length && OnGrid(r, page) && (length > 0 ==> r - length < page)
  {
    FloorTo(length + page - 1, page)
  }

  predicate Expired(e: Charged, timeout: nat, now: int) {
    timeout != 0 && now - e.insertedAt >= timeout
  }

  datatype GroupState = GroupState(
    pattern: string, bounded: bool, capacity: nat,
    policy: PolicyState, used: int, entries: map<Block, Charged>)
  {
    function Drop(key: Block): GroupState
      requires key in entries
    {
      this.(used := used - entries[key].bytes, entries := entries - {key}, policy := policy.OnErase(key))
    }

    function Add(key: Block, e: Charged): GroupState {
      this.(used := used + e.bytes, entries := entries[key := e], policy := policy.OnInsert(key))
    }

    /** The group once its policy has given up `victim`. */
    function AfterPop(victim: Block, rest: PolicyState): GroupState {
      if victim in entries then
        this.(policy := rest, used := used - entries[victim].bytes, entries := entries - {victim})
      else
        this.(policy := rest)
    }

    /** Evict until `needed` fits. The second component counts victims that had no entry. */
    function EvictToFit(needed: nat): (GroupState, nat)
      decreases |policy.Keys()|
    {
      if !bounded || used + needed <= capacity then (this, 0) else
      match policy.PopVictim()
      case Nothing => (this, 0)
      case Popped(victim, rest) =>
        var (g, strays) := AfterPop(victim, rest).EvictToFit(needed);
        (g, strays + if victim in entries then 0 else 1)
    }

    function Put(key: Block, chunk: Chunk, tag: string, now: int): GroupState {
      var bytes := Charge(chunk);
      if bounded && bytes > capacity then this else
      var without := if key in entries then Drop(key) else this;
      var roomy := without.EvictToFit(bytes).0;
      roomy.Add(key, Charged(CacheEntry(chunk.bytes, tag), bytes, now))
    }

    function Get(key: Block, expected: string, timeout: nat, now: int): (GroupState, Option<CacheEntry>) {
      if key !in entries then (this, None)
      else if Expired(entries[key], timeout, now) || !ValidTag(entries[key].entry.tag, expected) then
        (Drop(key), None)
      else
        (this.(policy := policy.OnHit(key)), Some(entries[key].entry))
    }

    function Delete(key: Block): (GroupState, bool) {
      if key in entries then (Drop(key), true) else (this, false)
    }

    function Clear(): GroupState {
      this.(used := 0, entries := map[], policy := policy.Emptied())
    }

    /** Drop the keys of `doomed` that are present, one after another. */
    function DropAll(doomed: seq<Block>): GroupState
      decreases |doomed|
    {
      if doomed == [] then this
      else (if doomed[0] in entries then Drop(doomed[0]) else this).DropAll(doomed[1..])
    }

    predicate SameConfig(other: GroupState) {
      pattern == other.pattern && bounded == other.bounded && capacity == other.capacity
    }

    /** Policy and entry map agree, the byte count is exact, and the budget is kept. */
    ghost predicate Inv() {
      && policy.WellFormed()
      && Elems(policy.Keys()) == entries.Keys
      && used == TotalCharge(entries)
      && (bounded ==> used <= capacity)
    }
  }

  lemma EvictUnfolds(g: GroupState, needed: nat)
    requires g.bounded && g.used + needed > g.capacity
    ensures match g.policy.PopVictim()
            case Nothing => g.EvictToFit(needed).0 == g
            case Popped(victim, rest) =>
              g.EvictToFit(needed).0 == g.AfterPop(victim, rest).EvictToFit(needed).0 &&
              |rest.Keys()| < |g.policy.Keys()|
  {
  }

  ghost function AnyKey(m: map<Block, Charged>): (k: Block)
    requires m != map[]
    ensures k in m
  {
    var k :| k in m;
    k
  }

  ghost function TotalCharge(m: map<Block, Charged>): nat
    decreases |m|
  {
    if m == map[] then 0 else
    var k := AnyKey(m);
    m[k].bytes + TotalCharge(m - {k})
  }

  /** The total does not depend on the order of summation. */
  lemma {:induction false} TotalChargeSplit(m: map<Block, Charged>, key: Block)
    requires key in m
    ensures TotalCharge(m) == m[key].bytes + TotalCharge(m - {key})
    decreases |m|
  {
    var k := AnyKey(m);
    if k != key {
      TotalChargeSplit(m - {k}, key);
      TotalChargeSplit(m - {key}, k);
      assert m - {k} - {key} == m - {key} - {k};
    }
  }

  lemma TotalChargeInsert(m: map<Block, Charged>, key: Block, e: Charged)
    requires key !in m
    ensures TotalCharge(m[key := e]) == TotalCharge(m) + e.bytes
  {
    TotalChargeSplit(m[key := e], key);
    assert m[key := e] - {key} == m;
  }

  lemma DropInv(g: GroupState, key: Block)
    requires g.Inv() && key in g.entries
    ensures g.Drop(key).Inv() && g.Drop(key).SameConfig(g)
  {
    EraseRemovesKey(g.policy, key);
    TotalChargeSplit(g.entries, key);
  }

  lemma EmptyPolicyUsesNothing(g: GroupState)
    requires g.Inv() && g.policy.Keys() == []
    ensures g.entries == map[] && g.used == 0
  {
    assert g.entries.Keys == Elems<Block>([]);
  }

  /** Eviction makes room without ever meeting either of its escapes, and only removes entries. */
  lemma {:induction false} EvictInv(g: GroupState, needed: nat)
    requires g.Inv() && (g.bounded ==> needed <= g.capacity)
    ensures var (r, strays) := g.EvictToFit(needed);
            && r.Inv() && r.SameConfig(g) && strays == 0
            && (g.bounded ==> r.used + needed <= g.capacity)
            && r.entries.Keys <= g.entries.Keys
            && (forall k :: k in r.entries ==> r.entries[k] == g.entries[k])
    decreases |g.policy.Keys()|
  {
    if g.bounded && g.used + needed > g.capacity {
      if g.policy.Keys() == [] {
        EmptyPolicyUsesNothing(g);
      }
      PopRemovesVictim(g.policy);
      var Popped(victim, rest) := g.policy.PopVictim();
      TotalChargeSplit(g.entries, victim);
      EvictInv(g.AfterPop(victim, rest), needed);
    }
  }

  /** Storing a payload for an absent key, once it fits. */
  lemma AddInv(g: GroupState, key: Block, e: Charged)
    requires g.Inv() && key !in g.entries && (g.bounded ==> g.used + e.bytes <= g.capacity)
    ensures g.Add(key, e).Inv()
  {
    InsertAddsKey(g.policy, key);
    TotalChargeInsert(g.entries, key, e);
  }

  lemma PutInv(g: GroupState, key: Block, chunk: Chunk, tag: string, now: int)
    requires g.Inv()
    ensures var r := g.Put(key, chunk, tag, now);
            && r.Inv() && r.SameConfig(g)
            && r.entries.Keys <= g.entries.Keys + {key}
            && (forall k :: k in r.entries && k != key ==> r.entries[k] == g.entries[k])
            && (g.bounded && Charge(chunk) > g.capacity ==> r == g)
            && (!(g.bounded && Charge(chunk) > g.capacity) ==>
                  key in r.entries && r.entries[key] == Charged(CacheEntry(chunk.bytes, tag), Charge(chunk), now))
  {
    var bytes := Charge(chunk);
    if !(g.bounded && bytes > g.capacity) {
      if key in g.entries {
        DropInv(g, key);
      }
      var without := if key in g.entries then g.Drop(key) else g;
      AcceptedPut(without, key, Charged(CacheEntry(chunk.bytes, tag), bytes, now));
    }
  }

  /** Making room for an absent key and storing it. */
  lemma AcceptedPut(g: GroupState, key: Block, e: Charged)
    requires g.Inv() && key !in g.entries && (g.bounded ==> e.bytes <= g.capacity)
    ensures var r := g.EvictToFit(e.bytes).0.Add(key, e);
            && r.Inv() && r.SameConfig(g) && r.entries.Keys <= g.entries.Keys + {key}
            && (forall k :: k in r.entries && k != key ==> r.entries[k] == g.entries[k])
            && key in r.entries && r.entries[key] == e
  {
    EvictInv(g, e.bytes);
    AddInv(g.EvictToFit(e.bytes).0, key, e);
  }

  /**
    A chunk with an allocation is stored exactly when the allocation fits the group, and then it
    is the allocation that counts as used, however few of its bytes are valid.
   */
  lemma PutCountsAllocation(g: GroupState, key: Block, chunk: Chunk, tag: string, now: int)
    requires g.Inv() && chunk.capacity > 0
    ensures var r := g.Put(key, chunk, tag, now);
            if g.bounded && chunk.capacity > g.capacity then r == g
            else key in r.entries && r.used == chunk.capacity + TotalCharge(r.entries - {key})
  {
    PutInv(g, key, chunk, tag, now);
    var r := g.Put(key, chunk, tag, now);
    if key in r.entries {
      TotalChargeSplit(r.entries, key);
    }
  }

  // Eviction takes no more victims than it must.

  /** The group once it has given up one more entry, if its policy names one. */
  function AfterOne(g: GroupState): GroupState {
    match g.policy.PopVictim()
    case Nothing => g
    case Popped(victim, rest) => g.AfterPop(victim, rest)
  }

  /** The group after its policy has been asked for `n` victims. */
  function PopTimes(g: GroupState, n: nat): GroupState
    decreases n
  {
    if n == 0 then g else PopTimes(AfterOne(g), n - 1)
  }

  predicate StillTooFull(g: GroupState, m: nat, needed: nat, capacity: nat) {
    PopTimes(g, m).used + needed > capacity
  }

  ghost predicate CanEvict(g: GroupState, needed: nat, capacity: nat) {
    g.Inv() && g.bounded && needed <= capacity && g.capacity == capacity
  }

  /** One victim of an eviction. */
  lemma EvictOneVictim(g: GroupState, needed: nat, capacity: nat)
    requires CanEvict(g, needed, capacity) && g.used + needed > capacity
    ensures CanEvict(AfterOne(g), needed, capacity) && |AfterOne(g).policy.Keys()| < |g.policy.Keys()|
    ensures g.EvictToFit(needed).0 == AfterOne(g).EvictToFit(needed).0
  {
    if g.policy.Keys() == [] {
      EmptyPolicyUsesNothing(g);
    }
    PopRemovesVictim(g.policy);
    var victim := g.policy.PopVictim().victim;
    TotalChargeSplit(g.entries, victim);
    EvictUnfolds(g, needed);
  }

  /** `r` is the group after the fewest victims that make room. */
  ghost predicate FewestVictims(g: GroupState, needed: nat, capacity: nat, n: nat, r: GroupState) {
    r == PopTimes(g, n) && r.used + needed <= capacity && forall m :: 0 <= m < n ==> StillTooFull(g, m, needed, capacity)
  }

  lemma FewestNext(g: GroupState, needed: nat, capacity: nat, n: nat, r: GroupState)
    requires g.used + needed > capacity && FewestVictims(AfterOne(g), needed, capacity, n, r)
    ensures FewestVictims(g, needed, capacity, n + 1, r)
  {
    forall m | 0 <= m < n + 1 ensures StillTooFull(g, m, needed, capacity) {
      if m > 0 {
        assert StillTooFull(AfterOne(g), m - 1, needed, capacity);
      }
    }
  }

  /** `r` is what evicting for `needed` makes of the group. */
  ghost predicate EvictsTo(g: GroupState, needed: nat, capacity: nat, r: GroupState) {
    CanEvict(g, needed, capacity) && r == g.EvictToFit(needed).0
  }

  lemma EvictsToStep(g: GroupState, needed: nat, capacity: nat, r: GroupState)
    requires EvictsTo(g, needed, capacity, r)
    ensures g.used + needed <= capacity ==> FewestVictims(g, needed, capacity, 0, r)
    ensures g.used + needed > capacity ==>
              EvictsTo(AfterOne(g), needed, capacity, r) && |AfterOne(g).policy.Keys()| < |g.policy.Keys()|
  {
    if g.used + needed > capacity {
      EvictOneVictim(g, needed, capacity);
    }
  }

  /** Before each victim the entry did not fit, and after the last one it does. */
  lemma {:induction false} EvictsNoMoreThanNeeded(g: GroupState, needed: nat, capacity: nat, r: GroupState) returns (n: nat)
    requires EvictsTo(g, needed, capacity, r)
    ensures FewestVictims(g, needed, capacity, n, r)
    decreases |g.policy.Keys()|
  {
    EvictsToStep(g, needed, capacity, r);
    n := 0;
    if g.used + needed > capacity {
      var n1 := EvictsNoMoreThanNeeded(AfterOne(g), needed, capacity, r);
      FewestNext(g, needed, capacity, n1, r);
      n := n1 + 1;
    }
  }

  lemma HitInv(g: GroupState, key: Block)
    requires g.Inv()
    ensures g.(policy := g.policy.OnHit(key)).Inv()
  {
    HitKeepsKeys(g.policy, key);
  }

  lemma GetInv(g: GroupState, key: Block, expected: string, timeout: nat, now: int)
    requires g.Inv()
    ensures var (r, hit) := g.Get(key, expected, timeout, now);
            && r.Inv() && r.SameConfig(g)
            && r.entries == (if hit.None? then g.entries - {key} else g.entries)
            && (hit.Some? ==> key in g.entries && hit.value == g.entries[key].entry &&
                              ValidTag(hit.value.tag, expected))
            && (hit.Some? <==>
                  && key in g.entries && (expected == "" || g.entries[key].entry.tag == expected)
                  && (timeout == 0 || now - g.entries[key].insertedAt < timeout))
  {
    if key !in g.entries {
      assert g.entries - {key} == g.entries;
    } else if g.Get(key, expected, timeout, now).1.None? {
      DropInv(g, key);
    } else {
      HitInv(g, key);
    }
  }

  lemma SubtractTwice(entries: map<Block, Charged>, x: Block, rest: set<Block>)
    ensures entries - {x} - rest == entries - ({x} + rest)
  {
  }

  lemma {:induction false} DropAllInv(g: GroupState, doomed: seq<Block>)
    requires g.Inv()
    ensures g.DropAll(doomed).Inv() && g.DropAll(doomed).SameConfig(g)
    ensures g.DropAll(doomed).entries == g.entries - Elems(doomed)
    decreases |doomed|
  {
    if doomed != [] {
      var x := doomed[0];
      var g1 := if x in g.entries then g.Drop(x) else g;
      if x in g.entries {
        DropInv(g, x);
      }
      DropAllInv(g1, doomed[1..]);
      assert Elems(doomed) == {x} + Elems(doomed[1..]);
      assert g1.entries == g.entries - {x};
      SubtractTwice(g.entries, x, Elems(doomed[1..]));
    }
  }

  /**
    A `Put` can leave an older payload behind in exactly one case: an oversized
    chunk offered for a key that already holds something else.
   */
  lemma PutLeavesStaleIff(g: GroupState, key: Block, chunk: Chunk, tag: string, now: int)
    requires g.Inv()
    ensures var r, put := g.Put(key, chunk, tag, now), CacheEntry(chunk.bytes, tag);
            (key in r.entries && r.entries[key].entry != put) <==>
            (g.bounded && Charge(chunk) > g.capacity && key in g.entries && g.entries[key].entry != put)
  {
    PutInv(g, key, chunk, tag, now);
  }

  /** A group of one byte that holds a byte, is offered two for the same key, and keeps the old one. */
  lemma OversizedPutLeavesStale(key: Block)
    ensures var g := GroupState("", true, 1, Lru([]), 0, map[]).Put(key, Chunk([7], 1), "old", 0);
            var r := g.Put(key, Chunk([8, 9], 2), "new", 1);
            g.Inv() && key in r.entries && r.entries[key].entry == CacheEntry([7], "old")
  {
    var empty := GroupState("", true, 1, Lru([]), 0, map[]);
    assert empty.Inv() by {
      assert empty.policy.Keys() == [];
      assert Elems<Block>([]) == {};
    }
    PutInv(empty, key, Chunk([7], 1), "old", 0);
  }
}
