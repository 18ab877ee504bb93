/** What the stock LRU storage holds and answers, told from the list of calls. */
module StockHistory {
  import opened Blocks
  import opened Sequences
  import opened PolicyOrder
  import S = PolicyStorage
  import H = PolicyHistory
  import E = LruEquivalence
  import L = StockLru

  function New(maxEntries: nat, timeout: nat): L.LruState {
    L.LruState(maxEntries, timeout, [], map[])
  }

  lemma NewInv(maxEntries: nat, timeout: nat)
    ensures New(maxEntries, timeout).Inv()
  {
    assert Elems<Block>([]) == {};
  }

  // The last Put of each key.

  ghost predicate Current(l: L.LruState, history: map<Block, H.Record>) {
    forall k :: k in l.entries ==> k in history && l.entries[k] == L.Timed(history[k].entry, history[k].at)
  }

  lemma StepInv(l: L.LruState, op: S.Op)
    requires l.Inv()
    ensures E.StockStep(l, op).Inv() && E.StockStep(l, op).timeout == l.timeout &&
            E.StockStep(l, op).maxEntries == l.maxEntries
  {
    match op
    case Put(key, chunk, tag, now) => L.PutInv(l, key, CacheEntry(chunk.bytes, tag), now);
    case Get(key, tag, now) => L.GetInv(l, key, tag, now);
    case Delete(key) => L.DeleteInv(l, key);
    case ClearFile(fname, _) => L.ClearFileInv(l, fname);
    case _ => assert Elems<Block>([]) == {};
  }

  lemma StepCurrent(l: L.LruState, op: S.Op, history: map<Block, H.Record>)
    requires l.Inv() && Current(l, history)
    ensures Current(E.StockStep(l, op), H.LastPut(history, op))
  {
    match op
    case Get(key, tag, now) => L.GetInv(l, key, tag, now);
    case Delete(key) => L.DeleteInv(l, key);
    case _ =>
  }

  lemma {:induction false} RunCurrent(l: L.LruState, ops: seq<S.Op>, history: map<Block, H.Record>)
    requires l.Inv() && Current(l, history)
    ensures var r := E.StockRun(l, ops);
            r.Inv() && r.timeout == l.timeout && r.maxEntries == l.maxEntries && Current(r, H.History(history, ops))
    decreases |ops|
  {
    if ops != [] {
      StepInv(l, ops[0]);
      StepCurrent(l, ops[0], history);
      RunCurrent(E.StockStep(l, ops[0]), ops[1..], H.LastPut(history, ops[0]));
    }
  }

  /**
    After any run, a lookup hits exactly when the key is held, the tag of its last Put is
    acceptable, and that Put is not older than the timeout; the hit is that Put's payload.
   */
  lemma StockLookupHitsIff(maxEntries: nat, timeout: nat, ops: seq<S.Op>, key: Block, tag: string, now: int)
    ensures var l, history := E.StockRun(New(maxEntries, timeout), ops), H.History(map[], ops);
            var hit := l.Get(key, tag, now).1;
            && (hit.Some? <==>
                  && key in l.entries && key in history
                  && (tag == "" || history[key].entry.tag == tag)
                  && (timeout == 0 || now - history[key].at <= timeout))
            && (hit.Some? ==> hit.value == history[key].entry)
  {
    NewInv(maxEntries, timeout);
    RunCurrent(New(maxEntries, timeout), ops, map[]);
    L.GetInv(E.StockRun(New(maxEntries, timeout), ops), key, tag, now);
  }

  // When each held key was last put or hit.

  function TouchedBy(l: L.LruState, op: S.Op): Option<Block> {
    match op
    case Put(key, _, _, _) => Some(key)
    case Get(key, tag, now) => if l.Get(key, tag, now).1.Some? then Some(key) else None
    case _ => None
  }

  /** The times of the keys that are still held after the call. */
  function Touch(l: L.LruState, op: S.Op, touched: map<Block, nat>, n: nat): map<Block, nat> {
    var t := if TouchedBy(l, op).Some? then touched[TouchedBy(l, op).value := n] else touched;
    map k | k in t && k in E.StockStep(l, op).entries :: t[k]
  }

  function RunTouched(l: L.LruState, ops: seq<S.Op>, touched: map<Block, nat>, n: nat): map<Block, nat>
    decreases |ops|
  {
    if ops == [] then touched
    else RunTouched(E.StockStep(l, ops[0]), ops[1..], Touch(l, ops[0], touched, n), n + 1)
  }

  lemma {:induction false} ExcludingOrdered(order: seq<Block>, times: map<Block, nat>, now: nat, gone: set<Block>)
    requires LatestFirst(order, times, now)
    ensures LatestFirst(Excluding(order, gone), times - gone, now)
    decreases |order|
  {
    if order == [] {
      assert times - gone == times;
    } else {
      var x, rest := order[0], order[1..];
      FrontIsLatest(order, times, now);
      ExcludingOrdered(rest, times - {x}, now, gone);
      assert times - {x} - gone == times - ({x} + gone);
      ExcludingElems(order, gone);
      ExcludingElems(rest, gone);
      if x in gone {
        assert {x} + gone == gone;
      } else {
        HeadOrdered(order, times, now, gone);
      }
    }
  }

  lemma HeadOrdered(order: seq<Block>, times: map<Block, nat>, now: nat, gone: set<Block>)
    requires LatestFirst(order, times, now) && order != [] && order[0] !in gone
    requires LatestFirst(Excluding(order[1..], gone), times - ({order[0]} + gone), now)
    ensures LatestFirst(Excluding(order, gone), times - gone, now)
  {
    var x, r := order[0], Excluding(order[1..], gone);
    assert x in Elems(order);
    forall k | k in r ensures Later(times - gone, x, k) {
      assert k in Elems(r);
      LaterThanRest(order, times, now, k);
    }
    assert (times - gone) - {x} == times - ({x} + gone);
    ConsOrdered(x, r, times - gone, now);
  }

  lemma LaterThanRest(order: seq<Block>, times: map<Block, nat>, now: nat, k: Block)
    requires LatestFirst(order, times, now) && order != [] && k in times && k != order[0]
    ensures Later(times, order[0], k)
  {
    assert k in Elems(order);
    var i :| 0 <= i < |order| && order[i] == k;
    assert Later(times, order[0], order[i]);
  }

  ghost predicate Ordered(l: L.LruState, touched: map<Block, nat>, n: nat) {
    l.Inv() && LatestFirst(l.order, touched, n)
  }

  lemma SameKeys(l: L.LruState, op: S.Op, touched: map<Block, nat>, n: nat, expected: map<Block, nat>)
    requires var t := if TouchedBy(l, op).Some? then touched[TouchedBy(l, op).value := n] else touched;
             forall k :: k in expected ==> k in t && t[k] == expected[k]
    requires expected.Keys == E.StockStep(l, op).entries.Keys
    ensures Touch(l, op, touched, n) == expected
  {
  }

  lemma PutOrdered(l: L.LruState, touched: map<Block, nat>, n: nat, op: S.Op)
    requires Ordered(l, touched, n) && op.Put?
    ensures Ordered(E.StockStep(l, op), Touch(l, op, touched, n), n + 1)
  {
    var key, l' := op.key, E.StockStep(l, op);
    StepInv(l, op);
    TouchedOrdered(l.order, touched, n, key);
    var order, times := [key] + Without(l.order, key), touched[key := n];
    if l.maxEntries > 0 && |order| > l.maxEntries {
      BackIsEarliest(order, times, n + 1);
      SameKeys(l, op, touched, n, times - {order[|order| - 1]});
    } else {
      SameKeys(l, op, touched, n, times);
    }
  }

  lemma GetOrdered(l: L.LruState, touched: map<Block, nat>, n: nat, op: S.Op)
    requires Ordered(l, touched, n) && op.Get?
    ensures Ordered(E.StockStep(l, op), Touch(l, op, touched, n), n + 1)
  {
    var key := op.key;
    StepInv(l, op);
    L.GetInv(l, key, op.tag, op.now);
    LaterClock(l.order, touched, n);
    if key !in l.entries {
      SameKeys(l, op, touched, n, touched);
    } else if l.Get(key, op.tag, op.now).1.Some? {
      TouchedOrdered(l.order, touched, n, key);
      SameKeys(l, op, touched, n, touched[key := n]);
    } else {
      MovedToFront(l.order, key);
      WithoutOrdered(l.order, touched, n + 1, key);
      SameKeys(l, op, touched, n, touched - {key});
    }
  }

  lemma StepOrdered(l: L.LruState, touched: map<Block, nat>, n: nat, op: S.Op)
    requires Ordered(l, touched, n)
    ensures Ordered(E.StockStep(l, op), Touch(l, op, touched, n), n + 1)
  {
    StepInv(l, op);
    LaterClock(l.order, touched, n);
    match op
    case Put(_, _, _, _) => PutOrdered(l, touched, n, op);
    case Get(_, _, _) => GetOrdered(l, touched, n, op);
    case Delete(key) =>
      L.DeleteInv(l, key);
      WithoutOrdered(l.order, touched, n + 1, key);
      WithoutElems(l.order, key);
      SameKeys(l, op, touched, n, touched - {key});
    case ClearFile(fname, _) =>
      ExcludingOrdered(l.order, touched, n + 1, l.FileKeys(fname));
      SameKeys(l, op, touched, n, touched - l.FileKeys(fname));
    case _ => SameKeys(l, op, touched, n, map[]);
  }

  lemma {:induction false} RunOrdered(l: L.LruState, ops: seq<S.Op>, touched: map<Block, nat>, n: nat, end: nat)
    requires Ordered(l, touched, n) && end == n + |ops|
    ensures Ordered(E.StockRun(l, ops), RunTouched(l, ops, touched, n), end)
    decreases |ops|
  {
    if ops != [] {
      StepOrdered(l, touched, n, ops[0]);
      RunOrdered(E.StockStep(l, ops[0]), ops[1..], Touch(l, ops[0], touched, n), n + 1, end);
    }
  }

  /** A new key in a full cache pushes out the back of the list. */
  lemma PutDropsBack(l: L.LruState, key: Block, entry: CacheEntry, now: int)
    requires l.Inv()
    ensures var keys := l.Put(key, entry, now).entries.Keys;
            if l.maxEntries > 0 && key !in l.entries && |l.order| == l.maxEntries
            then l.order != [] && keys == l.entries.Keys - {l.order[|l.order| - 1]} + {key}
            else keys == l.entries.Keys + {key}
  {
    if key in l.entries {
      MovedToFront(l.order, key);
    } else {
      E.PutIsTrimAndAdd(l, key, entry, now);
    }
  }

  /** The key whose last Put or hit is the earliest. */
  ghost predicate LeastRecent(touched: map<Block, nat>, v: Block) {
    v in touched && forall k :: k in touched ==> touched[v] <= touched[k]
  }

  lemma BackIsLeastRecent(l: L.LruState, touched: map<Block, nat>, n: nat)
    requires Ordered(l, touched, n)
    ensures touched.Keys == l.entries.Keys
    ensures l.order != [] ==> LeastRecent(touched, l.order[|l.order| - 1])
  {
    if l.order != [] {
      BackIsEarliest(l.order, touched, n);
    }
  }

  /**
    After any run, putting a new key into a full cache drops exactly the key whose last Put or hit
    is the earliest; any other Put drops nothing.
   */
  lemma StockEvictsLeastRecent(maxEntries: nat, timeout: nat, ops: seq<S.Op>, key: Block, entry: CacheEntry, now: int)
    ensures var l := E.StockRun(New(maxEntries, timeout), ops);
            var touched, keys := RunTouched(New(maxEntries, timeout), ops, map[], 0), l.Put(key, entry, now).entries.Keys;
            && touched.Keys == l.entries.Keys
            && if maxEntries > 0 && key !in l.entries && |l.order| == maxEntries
               then exists v :: LeastRecent(touched, v) && keys == l.entries.Keys - {v} + {key}
               else keys == l.entries.Keys + {key}
  {
    var first := New(maxEntries, timeout);
    NewInv(maxEntries, timeout);
    NewOrdered(maxEntries, timeout);
    RunOrdered(first, ops, map[], 0, |ops|);
    RunCurrent(first, ops, map[]);
    var l := E.StockRun(first, ops);
    BackIsLeastRecent(l, RunTouched(first, ops, map[], 0), |ops|);
    PutDropsBack(l, key, entry, now);
  }

  lemma NewOrdered(maxEntries: nat, timeout: nat)
    ensures Ordered(New(maxEntries, timeout), map[], 0)
  {
    assert Elems<Block>([]) == {};
  }
}
