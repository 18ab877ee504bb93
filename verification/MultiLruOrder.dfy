/** Which entry of the multi-value LRU an overflow gives up, told from the calls of a run. */
module MultiLruOrder {
  import opened MultiLru

  /** `at` tells which call put each item; the list runs from the latest call to the earliest. */
  predicate PutAt(items: seq<Item>, ops: seq<Op>, at: seq<nat>) {
    && |at| == |items|
    && (forall i :: 0 <= i < |items| ==> at[i] < |ops| && ops[at[i]] == Insert(items[i]))
    && (forall i, j :: 0 <= i < j < |at| ==> at[i] > at[j])
  }

  /** `r` is `items` with some of its entries left out. */
  ghost predicate Thinned(r: seq<Item>, items: seq<Item>, from: seq<nat>) {
    && |from| == |r|
    && (forall i :: 0 <= i < |r| ==> from[i] < |items| && r[i] == items[from[i]])
    && (forall i, j :: 0 <= i < j < |from| ==> from[i] < from[j])
  }

  lemma ThinnedPutAt(r: seq<Item>, items: seq<Item>, from: seq<nat>, ops: seq<Op>, at: seq<nat>) returns (at': seq<nat>)
    requires Thinned(r, items, from) && PutAt(items, ops, at)
    ensures PutAt(r, ops, at')
  {
    at' := seq(|r|, i requires 0 <= i < |r| => at[from[i]]);
  }

  lemma ThinnedTwice(a: seq<Item>, b: seq<Item>, c: seq<Item>, f: seq<nat>, g: seq<nat>) returns (h: seq<nat>)
    requires Thinned(a, b, f) && Thinned(b, c, g)
    ensures Thinned(a, c, h)
  {
    h := seq(|a|, i requires 0 <= i < |a| => g[f[i]]);
  }

  lemma ThinnedSelf(items: seq<Item>) returns (from: seq<nat>)
    ensures Thinned(items, items, from)
  {
    from := seq(|items|, i => i);
  }

  lemma ThinnedTail(items: seq<Item>) returns (from: seq<nat>)
    requires items != []
    ensures Thinned(items[1..], items, from)
  {
    from := seq(|items| - 1, i requires 0 <= i => i + 1);
  }

  lemma ThinnedFront(items: seq<Item>) returns (from: seq<nat>)
    requires items != []
    ensures Thinned(items[..|items| - 1], items, from)
  {
    from := seq(|items| - 1, i requires 0 <= i => i);
  }

  /** Thinning the tail of a list under its head. */
  lemma ThinnedUnderHead(x: Item, r: seq<Item>, rest: seq<Item>, f: seq<nat>) returns (from: seq<nat>)
    requires Thinned(r, rest, f)
    ensures Thinned([x] + r, [x] + rest, from)
  {
    from := [0] + seq(|r|, i requires 0 <= i < |r| => f[i] + 1);
  }

  lemma {:induction false} RemoveOldestThins(items: seq<Item>, k: Key) returns (from: seq<nat>)
    requires Deque(items, k) != []
    ensures Thinned(RemoveOldest(items, k), items, from)
  {
    var rest := items[1..];
    if Deque(rest, k) != [] {
      var f := RemoveOldestThins(rest, k);
      assert [items[0]] + rest == items;
      from := ThinnedUnderHead(items[0], RemoveOldest(rest, k), rest, f);
    } else {
      from := ThinnedTail(items);
    }
  }

  lemma {:induction false} RemoveKeyThins(items: seq<Item>, k: Key) returns (from: seq<nat>)
    ensures Thinned(RemoveKey(items, k), items, from)
  {
    if items == [] {
      from := [];
    } else {
      var rest := items[1..];
      var f := RemoveKeyThins(rest, k);
      if items[0].key == k {
        var g := ThinnedTail(items);
        from := ThinnedTwice(RemoveKey(rest, k), rest, items, f, g);
      } else {
        assert [items[0]] + rest == items;
        from := ThinnedUnderHead(items[0], RemoveKey(rest, k), rest, f);
      }
    }
  }

  lemma {:induction false} PopExpiredThins(items: seq<Item>, k: Key, now: int, timeout: nat) returns (from: seq<nat>)
    ensures Thinned(PopExpired(items, k, now, timeout).0, items, from)
    decreases |Deque(items, k)|
  {
    var d := Deque(items, k);
    if d != [] && Expired(d[0], now, timeout) {
      RemoveOldestDeques(items, k, k);
      var r := RemoveOldest(items, k);
      var f := RemoveOldestThins(items, k);
      var g := PopExpiredThins(r, k, now, timeout);
      from := ThinnedTwice(PopExpired(r, k, now, timeout).0, r, items, g, f);
    } else {
      from := ThinnedSelf(items);
    }
  }

  lemma PopThins(items: seq<Item>, k: Key, now: int, timeout: nat) returns (from: seq<nat>)
    ensures Thinned(GetAndPop(items, k, now, timeout).items, items, from)
  {
    var live := if timeout > 0 then PopExpired(items, k, now, timeout).0 else items;
    var f;
    if timeout > 0 {
      f := PopExpiredThins(items, k, now, timeout);
    } else {
      f := ThinnedSelf(items);
    }
    if Deque(live, k) == [] {
      from := f;
    } else {
      var g := RemoveOldestThins(live, k);
      from := ThinnedTwice(RemoveOldest(live, k), live, items, g, f);
    }
  }

  lemma MorePast(items: seq<Item>, ops: seq<Op>, at: seq<nat>, op: Op)
    requires PutAt(items, ops, at)
    ensures PutAt(items, ops + [op], at)
  {
  }

  /** The new item heads the list as the latest call. */
  lemma InsertedPutAt(items: seq<Item>, ops: seq<Op>, at: seq<nat>, item: Item)
    requires PutAt(items, ops, at)
    ensures PutAt([item] + items, ops + [Insert(item)], [|ops|] + at)
  {
  }

  lemma StepPutAt(items: seq<Item>, past: seq<Op>, at: seq<nat>, op: Op, maxEntries: nat, timeout: nat)
    returns (at': seq<nat>)
    requires PutAt(items, past, at)
    ensures PutAt(Apply(items, op, maxEntries, timeout).0, past + [op], at')
  {
    MorePast(items, past, at, op);
    var after := Apply(items, op, maxEntries, timeout).0;
    match op
    case Insert(item) =>
      InsertedPutAt(items, past, at, item);
      at' := [|past|] + at;
      if after != [item] + items {
        var from := ThinnedFront([item] + items);
        at' := ThinnedPutAt(after, [item] + items, from, past + [op], at');
      }
    case Pop(k, now) =>
      var from := PopThins(items, k, now, timeout);
      at' := ThinnedPutAt(after, items, from, past + [op], at);
    case DropKey(k) =>
      var from := RemoveKeyThins(items, k);
      at' := ThinnedPutAt(after, items, from, past + [op], at);
    case Clear => at' := [];
  }

  lemma {:induction false} RunPutAt(items: seq<Item>, past: seq<Op>, at: seq<nat>, ops: seq<Op>, all: seq<Op>,
                                    maxEntries: nat, timeout: nat) returns (at': seq<nat>)
    requires PutAt(items, past, at) && past + ops == all
    ensures PutAt(RunItems(items, ops, maxEntries, timeout), all, at')
    decreases |ops|
  {
    if ops == [] {
      assert past == all;
      at' := at;
    } else {
      var at1 := StepPutAt(items, past, at, ops[0], maxEntries, timeout);
      assert (past + [ops[0]]) + ops[1..] == past + ops;
      at' := RunPutAt(Apply(items, ops[0], maxEntries, timeout).0, past + [ops[0]], at1, ops[1..], all,
                      maxEntries, timeout);
    }
  }

  /** A list of calls never holds more than the limit. */
  lemma {:induction false} RunWithinLimit(items: seq<Item>, ops: seq<Op>, maxEntries: nat, timeout: nat)
    requires maxEntries > 0 && |items| <= maxEntries
    ensures |RunItems(items, ops, maxEntries, timeout)| <= maxEntries
    decreases |ops|
  {
    if ops != [] {
      StepWithinLimit(items, ops[0], maxEntries, timeout);
      RunWithinLimit(Apply(items, ops[0], maxEntries, timeout).0, ops[1..], maxEntries, timeout);
    }
  }

  lemma StepWithinLimit(items: seq<Item>, op: Op, maxEntries: nat, timeout: nat)
    requires maxEntries > 0 && |items| <= maxEntries
    ensures |Apply(items, op, maxEntries, timeout).0| <= maxEntries
  {
    match op
    case Insert(_) =>
    case Pop(k, now) =>
      var from := PopThins(items, k, now, timeout);
      ThinnedShorter(GetAndPop(items, k, now, timeout).items, items, from);
    case DropKey(k) =>
      var from := RemoveKeyThins(items, k);
      ThinnedShorter(RemoveKey(items, k), items, from);
    case Clear =>
  }

  lemma {:induction false} ThinnedShorter(r: seq<Item>, items: seq<Item>, from: seq<nat>)
    requires Thinned(r, items, from)
    ensures |r| <= |items|
  {
    forall i | 0 <= i < |from| ensures from[i] >= i {
      ThinnedIndex(from, i);
    }
    assert r != [] ==> from[|r| - 1] < |items|;
  }

  lemma {:induction false} ThinnedIndex(from: seq<nat>, i: nat)
    requires i < |from| && forall a, b :: 0 <= a < b < |from| ==> from[a] < from[b]
    ensures from[i] >= i
  {
    if i > 0 {
      ThinnedIndex(from, i - 1);
    }
  }

  /**
    After any run under a monotone clock, an insertion at the current time is cached. Only a full
    cache gives something back: the entry put by the earliest call of all that are cached, none of
    which is older; everything else stays in place.
   */
  lemma OverflowGivesUpOldest(ops: seq<Op>, item: Item, maxEntries: nat, timeout: nat)
    returns (oldest: Item, at: seq<nat>)
    requires MonotoneClock(ops + [Insert(item)])
    ensures var items := RunItems([], ops, maxEntries, timeout);
            var (after, back) := Apply(items, Insert(item), maxEntries, timeout);
            && item in after
            && (back == [] <==> maxEntries == 0 || |items| < maxEntries)
            && (back == [] ==> after == [item] + items)
            && (back != [] ==>
                  && back == [oldest.handle] && [item] + items == after + [oldest]
                  && PutAt(after + [oldest], ops + [Insert(item)], at)
                  && forall x :: x in after ==> oldest.timestamp <= x.timestamp)
  {
    var items := RunItems([], ops, maxEntries, timeout);
    var all := [item] + items;
    if maxEntries > 0 {
      RunWithinLimit([], ops, maxEntries, timeout);
    }
    oldest := PutGivesUpBack(items, item, maxEntries);
    var at0 := RunPutAt([], [], [], ops, ops, maxEntries, timeout);
    InsertedPutAt(items, ops, at0, item);
    at := [|ops|] + at0;
    InsertedChronological(ops, item, maxEntries, timeout);
    BackHasLeastTime(all);
  }

  /** An insertion into a full list pushes its back out. */
  lemma PutGivesUpBack(items: seq<Item>, item: Item, maxEntries: nat) returns (oldest: Item)
    requires maxEntries > 0 ==> |items| <= maxEntries
    ensures var (after, back) := Put(items, item, maxEntries);
            var all := [item] + items;
            && item in after && oldest == all[|all| - 1]
            && (back == [] <==> maxEntries == 0 || |items| < maxEntries)
            && (back == [] ==> after == all)
            && (back != [] ==> back == [oldest.handle] && after == all[..|all| - 1] && all == after + [oldest])
  {
    var all := [item] + items;
    oldest := all[|all| - 1];
    assert all[0] == item && (|all| > 1 ==> all[..|all| - 1][0] == item);
    assert all == all[..|all| - 1] + [oldest];
  }

  lemma BackHasLeastTime(all: seq<Item>)
    requires Chronological(all) && all != []
    ensures forall x :: x in all[..|all| - 1] ==> all[|all| - 1].timestamp <= x.timestamp
  {
    forall x | x in all[..|all| - 1] ensures all[|all| - 1].timestamp <= x.timestamp {
      var i :| 0 <= i < |all| - 1 && all[i] == x;
    }
  }

  lemma InsertedChronological(ops: seq<Op>, item: Item, maxEntries: nat, timeout: nat)
    requires MonotoneClock(ops + [Insert(item)])
    ensures Chronological([item] + RunItems([], ops, maxEntries, timeout))
  {
    var more := ops + [Insert(item)];
    MonotonePrefix(ops, Insert(item));
    EveryRunIsChronological(ops, maxEntries, timeout);
    var items := RunItems([], ops, maxEntries, timeout);
    var at := RunPutAt([], [], [], ops, ops, maxEntries, timeout);
    forall i | 0 <= i < |items| ensures items[i].timestamp <= item.timestamp {
      assert more[at[i]] == Insert(items[i]) && more[|ops|] == Insert(item);
    }
  }

  lemma MonotonePrefix(ops: seq<Op>, op: Op)
    requires MonotoneClock(ops + [op])
    ensures MonotoneClock(ops)
  {
    var more := ops + [op];
    forall i, j | 0 <= i < j < |ops| && Timed(ops[i]) && Timed(ops[j]) ensures Clock(ops[i]) <= Clock(ops[j]) {
      assert more[i] == ops[i] && more[j] == ops[j];
    }
  }
}
