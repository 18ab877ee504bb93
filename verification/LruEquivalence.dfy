/** With equal charges, the byte-bounded "lru" storage and the stock LRU storage are indistinguishable. */
module LruEquivalence {
  import opened Blocks
  import opened Grid
  import opened Sequences
  import opened Policies
  import opened PolicyGroups
  import S = PolicyStorage
  import L = StockLru

  function StockStep(l: L.LruState, op: S.Op): L.LruState {
    match op
    case Put(key, chunk, tag, now) => l.Put(key, CacheEntry(chunk.bytes, tag), now)
    case Get(key, tag, now) => l.Get(key, tag, now).0
    case Delete(key) => l.Delete(key).0
    case ClearFile(fname, _) => l.ClearFile(fname)
    case _ => l.Clear()
  }

  /** What a caller sees of one call. */
  datatype Answer = Quiet | Hit(entry: Option<CacheEntry>) | Found(was: bool)

  function StockAnswer(l: L.LruState, op: S.Op): Answer {
    match op
    case Get(key, tag, now) => Hit(l.Get(key, tag, now).1)
    case Delete(key) => Found(l.Delete(key).1)
    case _ => Quiet
  }

  function PolicyAnswer(s: S.StorageState, op: S.Op): Answer
    requires s.Shaped()
  {
    match op
    case Get(key, tag, now) => Hit(S.Lookup(s, key, tag, now))
    case Delete(key) => Found(s.groups[s.GroupFor(key.fname)].Delete(key).1)
    case _ => Quiet
  }

  /** The entry limit that a byte budget amounts to. */
  predicate Matched(maxBytes: nat, charge: nat, maxEntries: nat) {
    if maxBytes == 0 then maxEntries == 0
    else charge > 0 && maxEntries == maxBytes / charge && maxEntries >= 1
  }

  /** Same keys in the same order, same payloads, and exact byte accounting. */
  ghost predicate Same(g: GroupState, l: L.LruState, maxBytes: nat, charge: nat) {
    && l.timeout == 0 && g.bounded == (maxBytes > 0) && g.capacity == maxBytes
    && g.Inv() && l.Inv()
    && g.policy == Lru(l.order)
    && SameEntries(g.entries, l.entries, charge)
  }

  ghost predicate SameEntries(g: map<Block, Charged>, l: map<Block, L.Timed>, charge: nat) {
    g.Keys == l.Keys && forall k :: k in g ==> g[k].entry == l[k].entry && g[k].bytes == charge
  }

  ghost predicate Uniform(m: map<Block, Charged>, charge: nat) {
    forall k :: k in m ==> m[k].bytes == charge
  }

  lemma {:induction false} UniformTotal(m: map<Block, Charged>, charge: nat)
    requires Uniform(m, charge)
    ensures TotalCharge(m) == |m| * charge
    decreases |m|
  {
    if m != map[] {
      var k := AnyKey(m);
      UniformTotal(m - {k}, charge);
      assert m.Keys == (m - {k}).Keys + {k};
      MulSuccessor(|m| - 1, charge);
    }
  }

  lemma UsedIsCount(g: GroupState, l: L.LruState, maxBytes: nat, charge: nat)
    requires Same(g, l, maxBytes, charge)
    ensures g.used == |l.order| * charge
  {
    UniformTotal(g.entries, charge);
    NoDupSize(l.order);
    assert |g.entries| == |g.entries.Keys|;
  }

  /** One more equal charge fits exactly when the entry count is below the limit. */
  lemma FitsIffBelowLimit(maxBytes: nat, charge: nat, n: nat)
    requires maxBytes > 0 && charge > 0
    ensures n * charge + charge <= maxBytes <==> n < maxBytes / charge
  {
    var k := maxBytes / charge;
    SharesFit(maxBytes, charge);
    assert maxBytes == charge * k + maxBytes % charge;
    MulSuccessor(n, charge);
    if n < k {
      MulMonotone(n + 1, k, charge);
    } else {
      MulMonotone(k, n, charge);
    }
  }

  lemma DropSame(g: GroupState, l: L.LruState, maxBytes: nat, charge: nat, key: Block)
    requires Same(g, l, maxBytes, charge) && key in g.entries
    ensures Same(g.Drop(key), l.Drop(key), maxBytes, charge)
  {
    DropInv(g, key);
    L.DeleteInv(l, key);
  }

  /** The stock cache's overflow, taken before the insertion instead of after it. */
  function Trimmed(l: L.LruState): L.LruState {
    if l.maxEntries > 0 && |l.order| == l.maxEntries then
      var n := |l.order| - 1;
      l.(order := l.order[..n], entries := l.entries - {l.order[n]})
    else l
  }

  lemma TrimInv(l: L.LruState)
    requires l.Inv()
    ensures Trimmed(l).Inv() && (l.maxEntries > 0 ==> |Trimmed(l).order| < l.maxEntries)
  {
    if l.maxEntries > 0 && |l.order| == l.maxEntries {
      var n := |l.order| - 1;
      assert l.order == l.order[..n] + [l.order[n]];
      assert l.order[n] !in l.order[..n];
    }
  }

  lemma EvictIsTrim(g: GroupState, l: L.LruState, maxBytes: nat, charge: nat)
    requires Matched(maxBytes, charge, l.maxEntries)
    requires Same(g, l, maxBytes, charge)
    ensures Same(g.EvictToFit(charge).0, Trimmed(l), maxBytes, charge)
  {
    if maxBytes > 0 {
      TrimInv(l);
      UsedIsCount(g, l, maxBytes, charge);
      FitsIffBelowLimit(maxBytes, charge, |l.order|);
      SharesFit(maxBytes, charge);
      MulMonotone(1, maxBytes / charge, charge);
      EvictInv(g, charge);
      if |l.order| == l.maxEntries {
        EvictUnfolds(g, charge);
        var Popped(victim, rest) := g.policy.PopVictim();
        var g1 := g.AfterPop(victim, rest);
        assert victim in g.entries;
        TotalChargeSplit(g.entries, victim);
        assert g1.EvictToFit(charge).0 == g1 by {
          FitsIffBelowLimit(maxBytes, charge, |l.order| - 1);
          MulSuccessor(|l.order| - 1, charge);
        }
      }
    }
  }

  lemma PutAfterDelete(l: L.LruState, key: Block, entry: CacheEntry, now: int)
    requires l.Inv()
    ensures l.Delete(key).0.Put(key, entry, now) == l.Put(key, entry, now)
    ensures key !in l.Delete(key).0.entries && l.Delete(key).0.Inv()
  {
    L.DeleteInv(l, key);
    var d, timed := l.Delete(key).0, L.Timed(entry, now);
    WithoutElems(l.order, key);
    WithoutElems(d.order, key);
    L.Reinserted(l, key, timed);
    assert d.order == Without(l.order, key) && Without(d.order, key) == d.order;
    assert d.entries == l.entries - {key};
  }

  function Added(l: L.LruState, key: Block, entry: CacheEntry, now: int): L.LruState {
    l.(order := [key] + l.order, entries := l.entries[key := L.Timed(entry, now)])
  }

  lemma PutIsTrimAndAdd(l: L.LruState, key: Block, entry: CacheEntry, now: int)
    requires l.Inv() && key !in l.entries
    ensures l.Put(key, entry, now) == Added(Trimmed(l), key, entry, now)
  {
    WithoutElems(l.order, key);
    var full, timed := [key] + l.order, L.Timed(entry, now);
    if l.maxEntries > 0 && |l.order| == l.maxEntries {
      var n := |l.order|;
      assert full[..n] == [key] + l.order[..n - 1];
      assert full[n] == l.order[n - 1] && full[n] != key;
      assert l.entries[key := timed] - {full[n]} == (l.entries - {full[n]})[key := timed];
    }
  }

  lemma AddSame(g: GroupState, l: L.LruState, maxBytes: nat, charge: nat, key: Block, entry: CacheEntry, now: int)
    requires Same(g, l, maxBytes, charge) && key !in g.entries
    requires g.bounded ==> g.used + charge <= g.capacity
    requires l.maxEntries > 0 ==> |l.order| < l.maxEntries
    ensures Same(g.Add(key, Charged(entry, charge, now)), Added(l, key, entry, now), maxBytes, charge)
  {
    AddInv(g, key, Charged(entry, charge, now));
    AddedInv(l, key, entry, now);
    WithoutElems(l.order, key);
    AddSameEntries(g.entries, l.entries, charge, key, entry, now);
  }

  lemma AddSameEntries(g: map<Block, Charged>, l: map<Block, L.Timed>, charge: nat,
                       key: Block, entry: CacheEntry, now: int)
    requires SameEntries(g, l, charge)
    ensures SameEntries(g[key := Charged(entry, charge, now)], l[key := L.Timed(entry, now)], charge)
  {
  }

  lemma AddedInv(l: L.LruState, key: Block, entry: CacheEntry, now: int)
    requires l.Inv() && key !in l.entries && (l.maxEntries > 0 ==> |l.order| < l.maxEntries)
    ensures Added(l, key, entry, now).Inv()
  {
    assert key !in l.order;
    PrependNoDup(key, l.order);
    assert Elems([key] + l.order) == {key} + Elems(l.order);
  }

  lemma PutSame(g: GroupState, l: L.LruState, maxBytes: nat, charge: nat,
                key: Block, chunk: Chunk, tag: string, now: int)
    requires Matched(maxBytes, charge, l.maxEntries)
    requires Same(g, l, maxBytes, charge) && Charge(chunk) == charge
    ensures Same(g.Put(key, chunk, tag, now), l.Put(key, CacheEntry(chunk.bytes, tag), now), maxBytes, charge)
  {
    OneChargeFits(maxBytes, charge, l.maxEntries);
    var entry := CacheEntry(chunk.bytes, tag);
    PutAfterDelete(l, key, entry, now);
    if key in g.entries {
      DropSame(g, l, maxBytes, charge, key);
    }
    var g0, l0 := if key in g.entries then g.Drop(key) else g, l.Delete(key).0;
    PutIsTrimAndAdd(l0, key, entry, now);
    EvictIsTrim(g0, l0, maxBytes, charge);
    EvictInv(g0, charge);
    TrimInv(l0);
    AddSame(g0.EvictToFit(charge).0, Trimmed(l0), maxBytes, charge, key, entry, now);
  }

  lemma OneChargeFits(maxBytes: nat, charge: nat, maxEntries: nat)
    requires Matched(maxBytes, charge, maxEntries)
    ensures maxBytes > 0 ==> charge <= maxBytes
  {
    if maxBytes > 0 {
      SharesFit(maxBytes, charge);
      MulMonotone(1, maxBytes / charge, charge);
    }
  }

  lemma HitSame(g: GroupState, l: L.LruState, maxBytes: nat, charge: nat, key: Block)
    requires Same(g, l, maxBytes, charge) && key in g.entries
    ensures Same(g.(policy := g.policy.OnHit(key)), l.(order := [key] + Without(l.order, key)), maxBytes, charge)
  {
    HitInv(g, key);
    MovedToFront(l.order, key);
  }

  lemma GetSame(g: GroupState, l: L.LruState, maxBytes: nat, charge: nat, key: Block, tag: string, now: int)
    requires Same(g, l, maxBytes, charge)
    ensures Same(g.Get(key, tag, 0, now).0, l.Get(key, tag, now).0, maxBytes, charge)
    ensures g.Get(key, tag, 0, now).1 == l.Get(key, tag, now).1
  {
    if key in g.entries {
      HitSame(g, l, maxBytes, charge, key);
      if !ValidTag(g.entries[key].entry.tag, tag) {
        DropSame(g, l, maxBytes, charge, key);
        MovedToFront(l.order, key);
        assert l.Get(key, tag, now) == (l.Drop(key), None);
      }
    }
  }

  lemma {:induction false} EraseAll(g: GroupState, doomed: seq<Block>)
    requires g.policy.Lru? && g.Inv()
    ensures g.DropAll(doomed).policy == Lru(Excluding(g.policy.order, Elems(doomed)))
    decreases |doomed|
  {
    if doomed == [] {
      ExcludingNothing(g.policy.order);
      assert Elems(doomed) == {};
    } else {
      var x := doomed[0];
      var g1 := if x in g.entries then g.Drop(x) else g;
      if x in g.entries {
        DropInv(g, x);
      }
      EraseAll(g1, doomed[1..]);
      WithoutElems(g.policy.order, x);
      assert Elems(doomed) == {x} + Elems(doomed[1..]);
      ExcludingWithout(g.policy.order, x, Elems(doomed[1..]));
    }
  }

  lemma {:induction false} ExcludingWithout<T(!new)>(s: seq<T>, x: T, xs: set<T>)
    ensures Excluding(Without(s, x), xs) == Excluding(s, {x} + xs)
  {
    if s != [] {
      ExcludingWithout(s[1..], x, xs);
    }
  }

  lemma {:induction false} ExcludingSame<T(!new)>(s: seq<T>, xs: set<T>, ys: set<T>)
    requires forall x :: x in s ==> (x in xs <==> x in ys)
    ensures Excluding(s, xs) == Excluding(s, ys)
  {
    if s != [] {
      ExcludingSame(s[1..], xs, ys);
    }
  }

  /** `doomed` lists the cached blocks of the file, in any order. */
  ghost predicate ListsFile(g: GroupState, fname: string, doomed: seq<Block>) {
    forall k :: k in g.entries ==> (k in doomed <==> k.fname == fname)
  }

  lemma ClearFileSame(g: GroupState, l: L.LruState, maxBytes: nat, charge: nat, fname: string, doomed: seq<Block>)
    requires Same(g, l, maxBytes, charge) && ListsFile(g, fname, doomed)
    ensures Same(g.DropAll(doomed), l.ClearFile(fname), maxBytes, charge)
  {
    DropAllInv(g, doomed);
    L.ClearFileInv(l, fname);
    EraseAll(g, doomed);
    ExcludingSame(l.order, Elems(doomed), l.FileKeys(fname));
  }

  ghost predicate Related(s: S.StorageState, l: L.LruState, maxBytes: nat, charge: nat) {
    S.Inv(s) && |s.groups| == 1 && s.timeout == 0 && Matched(maxBytes, charge, l.maxEntries) &&
    Same(s.groups[0], l, maxBytes, charge)
  }

  /** The calls the equivalence is about: equal charges, and complete listings of a cleared file. */
  ghost predicate Allowed(s: S.StorageState, op: S.Op, charge: nat) {
    && (op.Put? ==> Charge(op.chunk) == charge)
    && (op.ClearFile? ==> forall i :: 0 <= i < |s.groups| ==> ListsFile(s.groups[i], op.fname, op.doomed))
  }

  lemma StepSame(s: S.StorageState, l: L.LruState, op: S.Op, maxBytes: nat, charge: nat)
    requires Related(s, l, maxBytes, charge) && Allowed(s, op, charge)
    ensures Related(S.Step(s, op), StockStep(l, op), maxBytes, charge)
    ensures PolicyAnswer(s, op) == StockAnswer(l, op)
  {
    S.StepInv(s, op);
    var g := s.groups[0];
    match op
    case Put(key, chunk, tag, now) => PutSame(g, l, maxBytes, charge, key, chunk, tag, now);
    case Get(key, tag, now) => GetSame(g, l, maxBytes, charge, key, tag, now);
    case Delete(key) => if key in g.entries { DropSame(g, l, maxBytes, charge, key); }
    case ClearFile(fname, doomed) => ClearFileSame(g, l, maxBytes, charge, fname, doomed);
    case _ => S.ClearInv(g);
  }

  ghost predicate AllowedRun(s: S.StorageState, ops: seq<S.Op>, charge: nat)
    requires s.Shaped()
    decreases |ops|
  {
    ops == [] || (Allowed(s, ops[0], charge) && AllowedRun(S.Step(s, ops[0]), ops[1..], charge))
  }

  function StockRun(l: L.LruState, ops: seq<S.Op>): L.LruState
    decreases |ops|
  {
    if ops == [] then l else StockRun(StockStep(l, ops[0]), ops[1..])
  }

  function PolicyAnswers(s: S.StorageState, ops: seq<S.Op>): seq<Answer>
    requires s.Shaped()
    decreases |ops|
  {
    if ops == [] then [] else [PolicyAnswer(s, ops[0])] + PolicyAnswers(S.Step(s, ops[0]), ops[1..])
  }

  function StockAnswers(l: L.LruState, ops: seq<S.Op>): seq<Answer>
    decreases |ops|
  {
    if ops == [] then [] else [StockAnswer(l, ops[0])] + StockAnswers(StockStep(l, ops[0]), ops[1..])
  }

  lemma {:induction false} RunSame(s: S.StorageState, l: L.LruState, ops: seq<S.Op>, maxBytes: nat, charge: nat)
    requires Related(s, l, maxBytes, charge) && AllowedRun(s, ops, charge)
    ensures Related(S.Run(s, ops), StockRun(l, ops), maxBytes, charge)
    ensures PolicyAnswers(s, ops) == StockAnswers(l, ops)
    decreases |ops|
  {
    if ops != [] {
      StepSame(s, l, ops[0], maxBytes, charge);
      RunSame(S.Step(s, ops[0]), StockStep(l, ops[0]), ops[1..], maxBytes, charge);
    }
  }

  function NewPolicyLru(maxBytes: nat): (s: S.StorageState)
    ensures s.Shaped()
  {
    S.Initial(maxBytes, [], Lru([]), 0)
  }

  function NewStock(maxEntries: nat): L.LruState {
    L.LruState(maxEntries, 0, [], map[])
  }

  lemma NewRelated(maxBytes: nat, charge: nat, maxEntries: nat)
    requires Matched(maxBytes, charge, maxEntries)
    ensures Related(NewPolicyLru(maxBytes), NewStock(maxEntries), maxBytes, charge)
  {
    S.InitialInv(maxBytes, [], Lru([]), 0);
    var g := NewPolicyLru(maxBytes).groups[0];
    assert g.policy == Lru([]) && g.entries == map[];
    assert g.capacity == maxBytes by {
      if maxBytes > 0 {
        assert maxBytes / 1 == maxBytes;
      }
    }
    assert NewStock(maxEntries).Inv();
  }

  /**
    Over every run: the same keys in the same recency order with the same
    payloads, and the same answer to every call.
   */
  lemma SwitchingStorageKeepsReplacement(maxBytes: nat, charge: nat, maxEntries: nat, ops: seq<S.Op>)
    requires Matched(maxBytes, charge, maxEntries)
    requires AllowedRun(NewPolicyLru(maxBytes), ops, charge)
    ensures var s, l := S.Run(NewPolicyLru(maxBytes), ops), StockRun(NewStock(maxEntries), ops);
            && |s.groups| == 1
            && s.groups[0].policy == Lru(l.order)
            && s.groups[0].entries.Keys == l.entries.Keys
            && (forall k :: k in l.entries ==> s.groups[0].entries[k].entry == l.entries[k].entry)
    ensures PolicyAnswers(NewPolicyLru(maxBytes), ops) == StockAnswers(NewStock(maxEntries), ops)
  {
    NewRelated(maxBytes, charge, maxEntries);
    RunSame(NewPolicyLru(maxBytes), NewStock(maxEntries), ops, maxBytes, charge);
  }

  /**
    The budget must hold at least one entry: below that the byte-bounded storage
    keeps nothing, while an entry limit of zero means no limit at all.
   */
  lemma TooSmallBudgetDiffers(maxBytes: nat, charge: nat, key: Block, chunk: Chunk, tag: string, now: int)
    requires 0 < maxBytes < charge && Charge(chunk) == charge
    ensures maxBytes / charge == 0
    ensures var ops := [S.Put(key, chunk, tag, now), S.Get(key, tag, now)];
            PolicyAnswers(NewPolicyLru(maxBytes), ops) == [Quiet, Hit(None)] &&
            StockAnswers(NewStock(maxBytes / charge), ops) == [Quiet, Hit(Some(CacheEntry(chunk.bytes, tag)))]
  {
    DivisionIsUnique(maxBytes, charge, 0, maxBytes);
    var put, get := S.Put(key, chunk, tag, now), S.Get(key, tag, now);
    var ops := [put, get];
    assert ops[1..] == [get] && ops[1..][1..] == [];
    var s, l := NewPolicyLru(maxBytes), NewStock(0);
    assert maxBytes / 1 == maxBytes;
    var s1, l1 := S.Step(s, put), StockStep(l, put);
    assert s1.groups[0].entries == map[];
    assert l1.entries == map[key := L.Timed(CacheEntry(chunk.bytes, tag), now)];
    assert PolicyAnswer(s1, get) == Hit(None);
    assert PolicyAnswers(s, ops) == [PolicyAnswer(s, put)] + PolicyAnswers(s1, [get]);
    assert PolicyAnswers(s1, [get]) == [PolicyAnswer(s1, get)] + PolicyAnswers(S.Step(s1, get), []);
    assert StockAnswers(l, ops) == [StockAnswer(l, put)] + StockAnswers(l1, [get]);
    assert StockAnswers(l1, [get]) == [StockAnswer(l1, get)] + StockAnswers(StockStep(l1, get), []);
  }
}
