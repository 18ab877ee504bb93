/** The exclusive multi-value LRU cache, as a value: one list of owned handles, newest first. */
module MultiLru {
  import opened Sequences

  type Key = string
  type Handle = nat

  /** `node` names the list node that the entry's iterator points to. */
  datatype Item = Item(key: Key, handle: Handle, timestamp: int, node: nat)
  datatype Node = Node(id: nat, key: Key)

  /** The items of one key, oldest first. */
  function Deque(items: seq<Item>, k: Key): seq<Item> {
    if items == [] then [] else Deque(items[1..], k) + (if items[0].key == k then [items[0]] else [])
  }

  function NodesOf(items: seq<Item>): (r: seq<Node>)
    ensures |r| == |items| && forall i :: 0 <= i < |items| ==> r[i] == Node(items[i].node, items[i].key)
  {
    seq(|items|, i requires 0 <= i < |items| => Node(items[i].node, items[i].key))
  }

  function EraseNode(list: seq<Node>, id: nat): seq<Node> {
    if list == [] then [] else if list[0].id == id then list[1..] else [list[0]] + EraseNode(list[1..], id)
  }

  /** The list without the oldest item of `k`. */
  function RemoveOldest(items: seq<Item>, k: Key): seq<Item>
    requires Deque(items, k) != []
  {
    if Deque(items[1..], k) != [] then [items[0]] + RemoveOldest(items[1..], k) else items[1..]
  }

  function RemoveKey(items: seq<Item>, k: Key): seq<Item> {
    if items == [] then []
    else if items[0].key == k then RemoveKey(items[1..], k)
    else [items[0]] + RemoveKey(items[1..], k)
  }

  function Handles(items: seq<Item>): seq<Handle> {
    if items == [] then [] else [items[0].handle] + Handles(items[1..])
  }

  predicate DistinctNodes(items: seq<Item>) {
    forall i, j :: 0 <= i < j < |items| ==> items[i].node != items[j].node
  }

  /** Insertion times never decrease towards the front. */
  predicate Chronological(items: seq<Item>) {
    forall i, j :: 0 <= i < j < |items| ==> items[i].timestamp >= items[j].timestamp
  }

  lemma {:induction false} DequeMembers(items: seq<Item>, k: Key)
    ensures forall x :: x in Deque(items, k) <==> x in items && x.key == k
  {
    if items != [] {
      DequeMembers(items[1..], k);
    }
  }

  lemma {:induction false} RemoveOldestDeques(items: seq<Item>, k: Key, other: Key)
    requires Deque(items, k) != []
    ensures Deque(RemoveOldest(items, k), other) ==
            if other == k then Deque(items, k)[1..] else Deque(items, other)
  {
    var rest := items[1..];
    if Deque(rest, k) != [] {
      RemoveOldestDeques(rest, k, other);
      var r := RemoveOldest(rest, k);
      assert ([items[0]] + r)[1..] == r;
    }
  }

  lemma {:induction false} RemoveOldestMembers(items: seq<Item>, k: Key)
    requires Deque(items, k) != []
    ensures forall x :: x in RemoveOldest(items, k) ==> x in items
    ensures |RemoveOldest(items, k)| == |items| - 1
  {
    if Deque(items[1..], k) != [] {
      RemoveOldestMembers(items[1..], k);
    }
  }

  lemma {:induction false} RemoveOldestDistinct(items: seq<Item>, k: Key)
    requires Deque(items, k) != [] && DistinctNodes(items)
    ensures DistinctNodes(RemoveOldest(items, k))
  {
    var rest := items[1..];
    if Deque(rest, k) != [] {
      RemoveOldestDistinct(rest, k);
      RemoveOldestMembers(rest, k);
      assert [items[0]] + rest == items;
      PrependDistinct(items[0], RemoveOldest(rest, k), rest);
    }
  }

  /** Erasing the node of the key's oldest entry erases exactly its place in the list. */
  lemma {:induction false} RemoveOldestNodes(items: seq<Item>, k: Key)
    requires Deque(items, k) != [] && DistinctNodes(items)
    ensures NodesOf(RemoveOldest(items, k)) == EraseNode(NodesOf(items), Deque(items, k)[0].node)
  {
    var rest := items[1..];
    assert NodesOf(items)[1..] == NodesOf(rest);
    if Deque(rest, k) != [] {
      RemoveOldestNodes(rest, k);
      OldestIsElsewhere(items, k);
      assert Deque(items, k)[0] == Deque(rest, k)[0];
      var r := RemoveOldest(rest, k);
      assert NodesOf([items[0]] + r) == [NodesOf(items)[0]] + NodesOf(r);
    }
  }

  lemma {:induction false} OldestIsElsewhere(items: seq<Item>, k: Key)
    requires items != [] && Deque(items[1..], k) != [] && DistinctNodes(items)
    ensures Deque(items[1..], k)[0].node != items[0].node
  {
    var rest := items[1..];
    DequeMembers(rest, k);
    var oldest := Deque(rest, k)[0];
    assert oldest in Deque(rest, k);
    var i :| 0 <= i < |rest| && rest[i] == oldest;
    assert items[i + 1] == oldest;
  }

  lemma {:induction false} PrependDistinct(x: Item, r: seq<Item>, rest: seq<Item>)
    requires DistinctNodes([x] + rest) && DistinctNodes(r) && forall y :: y in r ==> y in rest
    ensures DistinctNodes([x] + r)
  {
    forall j | 0 <= j < |r| ensures r[j].node != x.node {
      assert r[j] in rest;
      var i :| 0 <= i < |rest| && rest[i] == r[j];
      assert ([x] + rest)[0] == x && ([x] + rest)[i + 1] == r[j];
    }
  }

  lemma {:induction false} PrependChronological(x: Item, r: seq<Item>, rest: seq<Item>)
    requires Chronological([x] + rest) && Chronological(r) && forall y :: y in r ==> y in rest
    ensures Chronological([x] + r)
  {
    forall j | 0 <= j < |r| ensures x.timestamp >= r[j].timestamp {
      assert r[j] in rest;
      var i :| 0 <= i < |rest| && rest[i] == r[j];
      assert ([x] + rest)[0] == x && ([x] + rest)[i + 1] == r[j];
    }
  }

  lemma {:induction false} RemoveOldestChronological(items: seq<Item>, k: Key)
    requires Deque(items, k) != [] && Chronological(items)
    ensures Chronological(RemoveOldest(items, k))
    ensures forall x :: x in RemoveOldest(items, k) ==> x in items
  {
    var rest := items[1..];
    if Deque(rest, k) != [] {
      RemoveOldestChronological(rest, k);
      assert [items[0]] + rest == items;
      PrependChronological(items[0], RemoveOldest(rest, k), rest);
    }
  }

  /** The back of the list is the oldest item of its own key, and of all. */
  lemma {:induction false} BackIsOldest(items: seq<Item>)
    requires items != []
    ensures var last := items[|items| - 1];
            Deque(items, last.key) != [] && Deque(items, last.key)[0] == last &&
            RemoveOldest(items, last.key) == items[..|items| - 1]
  {
    if |items| > 1 {
      BackIsOldest(items[1..]);
      assert items[1..][|items| - 2] == items[|items| - 1];
      assert [items[0]] + items[1..][..|items| - 2] == items[..|items| - 1];
    } else {
      assert items[1..] == [] && items[..0] == [];
    }
  }

  predicate Ascending(d: seq<Item>) {
    forall i, j :: 0 <= i < j < |d| ==> d[i].timestamp <= d[j].timestamp
  }

  lemma {:induction false} DequeChronological(items: seq<Item>, k: Key)
    requires Chronological(items)
    ensures Ascending(Deque(items, k))
  {
    if items != [] {
      var rest := items[1..];
      DequeChronological(rest, k);
      DequeMembers(rest, k);
      var d := Deque(rest, k);
      forall i | 0 <= i < |d| ensures d[i].timestamp <= items[0].timestamp {
        assert d[i] in rest;
        var m :| 0 <= m < |rest| && rest[m] == d[i];
        assert items[m + 1] == d[i];
      }
      assert Ascending(d + [items[0]]);
      assert Deque(items, k) == d + [items[0]] || Deque(items, k) == d;
    }
  }

  // The operations.

  /** Insert at the front; on overflow the back goes to the caller. */
  function Put(items: seq<Item>, item: Item, maxEntries: nat): (seq<Item>, seq<Handle>) {
    var all := [item] + items;
    if maxEntries > 0 && |all| > maxEntries then (all[..|all| - 1], [all[|all| - 1].handle]) else (all, [])
  }

  predicate Expired(x: Item, now: int, timeout: nat) {
    now - x.timestamp > timeout
  }

  /** Pop stale entries off the key's deque until a fresh one is in front. */
  function PopExpired(items: seq<Item>, k: Key, now: int, timeout: nat): (seq<Item>, seq<Handle>)
    decreases |Deque(items, k)|
  {
    var d := Deque(items, k);
    if d == [] || !Expired(d[0], now, timeout) then (items, [])
    else
      RemoveOldestDeques(items, k, k);
      var (rest, evicted) := PopExpired(RemoveOldest(items, k), k, now, timeout);
      (rest, [d[0].handle] + evicted)
  }

  datatype Popped = Popped(items: seq<Item>, evicted: seq<Handle>, target: Option<Handle>)

  function GetAndPop(items: seq<Item>, k: Key, now: int, timeout: nat): Popped {
    var (live, evicted) := if timeout > 0 then PopExpired(items, k, now, timeout) else (items, []);
    var d := Deque(live, k);
    if d == [] then Popped(live, evicted, None)
    else Popped(RemoveOldest(live, k), evicted, Some(d[0].handle))
  }

  /** On a chronological list exactly the key's expired entries are popped. */
  lemma {:induction false} PopsExpiredPrefix(items: seq<Item>, k: Key, now: int, timeout: nat)
    requires Chronological(items)
    ensures var d := Deque(items, k);
            var (live, evicted) := PopExpired(items, k, now, timeout);
            && |evicted| <= |d|
            && evicted == Handles(d[..|evicted|])
            && Deque(live, k) == d[|evicted|..]
            && (forall i :: 0 <= i < |d| ==> (Expired(d[i], now, timeout) <==> i < |evicted|))
    decreases |Deque(items, k)|
  {
    var d := Deque(items, k);
    DequeChronological(items, k);
    if d == [] || !Expired(d[0], now, timeout) {
      assert d[..0] == [];
    } else {
      RemoveOldestDeques(items, k, k);
      RemoveOldestChronological(items, k);
      PopsExpiredPrefix(RemoveOldest(items, k), k, now, timeout);
      var e := PopExpired(RemoveOldest(items, k), k, now, timeout).1;
      assert d[..|e| + 1][1..] == d[1..][..|e|];
      assert d[1..][|e|..] == d[|e| + 1..];
      assert forall i :: 1 <= i < |d| ==> d[i] == d[1..][i - 1];
    }
  }

  lemma {:induction false} PopsThenTakes(items: seq<Item>, k: Key, now: int, timeout: nat)
    requires Chronological(items)
    ensures var d := Deque(items, k);
            var r := GetAndPop(items, k, now, timeout);
            && |r.evicted| <= |d| && r.evicted == Handles(d[..|r.evicted|])
            && (forall i :: 0 <= i < |d| ==> (timeout > 0 && Expired(d[i], now, timeout) <==> i < |r.evicted|))
            && r.target == (if |r.evicted| < |d| then Some(d[|r.evicted|].handle) else None)
  {
    if timeout > 0 {
      PopsExpiredPrefix(items, k, now, timeout);
    } else {
      assert Deque(items, k)[..0] == [];
    }
  }

  // Conservation of handles.

  lemma {:induction false} HandlesConcat(a: seq<Item>, b: seq<Item>)
    ensures Handles(a + b) == Handles(a) + Handles(b)
  {
    if a == [] {
      assert a + b == b;
    } else {
      assert (a + b)[1..] == a[1..] + b;
      HandlesConcat(a[1..], b);
    }
  }

  lemma {:induction false} RemoveOldestConserves(items: seq<Item>, k: Key)
    requires Deque(items, k) != []
    ensures multiset(Handles(items)) == multiset(Handles(RemoveOldest(items, k))) + multiset{Deque(items, k)[0].handle}
  {
    var rest := items[1..];
    assert Handles(items) == [items[0].handle] + Handles(rest);
    if Deque(rest, k) != [] {
      RemoveOldestConserves(rest, k);
      var r := RemoveOldest(rest, k);
      assert Handles([items[0]] + r) == [items[0].handle] + Handles(r) by { assert ([items[0]] + r)[1..] == r; }
      assert Deque(items, k)[0] == Deque(rest, k)[0];
    }
  }

  lemma {:induction false} RemoveKeyConserves(items: seq<Item>, k: Key)
    ensures multiset(Handles(items)) == multiset(Handles(RemoveKey(items, k))) + multiset(Handles(Deque(items, k)))
  {
    if items != [] {
      var rest := items[1..];
      RemoveKeyConserves(rest, k);
      assert Handles(items) == [items[0].handle] + Handles(rest);
      if items[0].key == k {
        HandlesSnoc(Deque(rest, k), items[0]);
      } else {
        var r := RemoveKey(rest, k);
        assert Handles([items[0]] + r) == [items[0].handle] + Handles(r) by { assert ([items[0]] + r)[1..] == r; }
        assert Deque(items, k) == Deque(rest, k);
      }
    }
  }

  lemma {:induction false} PopExpiredConserves(items: seq<Item>, k: Key, now: int, timeout: nat)
    ensures var (live, evicted) := PopExpired(items, k, now, timeout);
            multiset(Handles(items)) == multiset(Handles(live)) + multiset(evicted)
    decreases |Deque(items, k)|
  {
    var d := Deque(items, k);
    if d != [] && Expired(d[0], now, timeout) {
      RemoveOldestDeques(items, k, k);
      RemoveOldestConserves(items, k);
      PopExpiredConserves(RemoveOldest(items, k), k, now, timeout);
      var e := PopExpired(RemoveOldest(items, k), k, now, timeout).1;
      assert multiset([d[0].handle] + e) == multiset{d[0].handle} + multiset(e);
    }
  }

  datatype Op = Insert(item: Item) | Pop(key: Key, now: int) | DropKey(key: Key) | Clear

  /** One call: the list afterwards and every handle given back. */
  function Apply(items: seq<Item>, op: Op, maxEntries: nat, timeout: nat): (seq<Item>, seq<Handle>) {
    match op
    case Insert(item) => Put(items, item, maxEntries)
    case Pop(k, now) =>
      var r := GetAndPop(items, k, now, timeout);
      (r.items, r.evicted + (if r.target.Some? then [r.target.value] else []))
    case DropKey(k) => (RemoveKey(items, k), Handles(Deque(items, k)))
    case Clear => ([], Handles(items))
  }

  function PutIn(op: Op): seq<Handle> {
    if op.Insert? then [op.item.handle] else []
  }

  lemma {:induction false} InsertConserves(items: seq<Item>, item: Item, maxEntries: nat)
    ensures var (after, back) := Put(items, item, maxEntries);
            multiset(Handles(items)) + multiset{item.handle} == multiset(Handles(after)) + multiset(back)
  {
    var all := [item] + items;
    assert all[1..] == items;
    assert Handles(all) == [item.handle] + Handles(items);
    assert multiset(Handles(all)) == multiset(Handles(items)) + multiset{item.handle};
    BackHandle(all);
  }

  lemma HandlesSnoc(items: seq<Item>, x: Item)
    ensures Handles(items + [x]) == Handles(items) + [x.handle]
  {
    HandlesConcat(items, [x]);
    assert Handles([x]) == [x.handle] by { assert [x][1..] == []; }
  }

  /** Popping the back gives up exactly its handle. */
  lemma BackHandle(all: seq<Item>)
    requires all != []
    ensures multiset(Handles(all)) == multiset(Handles(all[..|all| - 1])) + multiset([all[|all| - 1].handle])
  {
    var front, last := all[..|all| - 1], all[|all| - 1];
    assert all == front + [last];
    HandlesSnoc(front, last);
  }

  lemma {:induction false} PopConserves(items: seq<Item>, k: Key, now: int, timeout: nat)
    ensures var r := GetAndPop(items, k, now, timeout);
            multiset(Handles(items)) ==
            multiset(Handles(r.items)) + (multiset(r.evicted) + (if r.target.Some? then multiset{r.target.value} else multiset{}))
  {
    PopExpiredConserves(items, k, now, timeout);
    var (live, evicted) := if timeout > 0 then PopExpired(items, k, now, timeout) else (items, []);
    assert multiset(Handles(items)) == multiset(Handles(live)) + multiset(evicted);
    if Deque(live, k) != [] {
      RemoveOldestConserves(live, k);
    }
  }

  lemma {:induction false} StepConserves(items: seq<Item>, op: Op, maxEntries: nat, timeout: nat)
    ensures var (after, back) := Apply(items, op, maxEntries, timeout);
            multiset(Handles(items)) + multiset(PutIn(op)) == multiset(Handles(after)) + multiset(back)
  {
    match op
    case Insert(item) => InsertConserves(items, item, maxEntries);
    case Pop(k, now) => PopConserves(items, k, now, timeout);
    case DropKey(k) => RemoveKeyConserves(items, k);
    case Clear =>
  }

  function RunItems(items: seq<Item>, ops: seq<Op>, maxEntries: nat, timeout: nat): seq<Item>
    decreases |ops|
  {
    if ops == [] then items else RunItems(Apply(items, ops[0], maxEntries, timeout).0, ops[1..], maxEntries, timeout)
  }

  function RunBack(items: seq<Item>, ops: seq<Op>, maxEntries: nat, timeout: nat): seq<Handle>
    decreases |ops|
  {
    if ops == [] then []
    else
      var (after, back) := Apply(items, ops[0], maxEntries, timeout);
      back + RunBack(after, ops[1..], maxEntries, timeout)
  }

  function RunPuts(ops: seq<Op>): seq<Handle> {
    if ops == [] then [] else PutIn(ops[0]) + RunPuts(ops[1..])
  }

  /** Over every run, the handles put in are exactly those still cached plus those handed back. */
  lemma {:induction false} HandlesAreConserved(items: seq<Item>, ops: seq<Op>, maxEntries: nat, timeout: nat)
    ensures multiset(Handles(items)) + multiset(RunPuts(ops)) ==
            multiset(Handles(RunItems(items, ops, maxEntries, timeout))) +
            multiset(RunBack(items, ops, maxEntries, timeout))
    decreases |ops|
  {
    if ops != [] {
      var (after, back) := Apply(items, ops[0], maxEntries, timeout);
      StepConserves(items, ops[0], maxEntries, timeout);
      HandlesAreConserved(after, ops[1..], maxEntries, timeout);
      Chain(multiset(Handles(items)), multiset(PutIn(ops[0])), multiset(Handles(after)), multiset(back),
            multiset(RunPuts(ops[1..])), multiset(Handles(RunItems(after, ops[1..], maxEntries, timeout))),
            multiset(RunBack(after, ops[1..], maxEntries, timeout)));
    }
  }

  // Runs under a monotone clock.

  predicate Timed(op: Op) {
    op.Insert? || op.Pop?
  }

  /** The clock reading a call makes. */
  function Clock(op: Op): int
    requires Timed(op)
  {
    if op.Insert? then op.item.timestamp else op.now
  }

  predicate MonotoneClock(ops: seq<Op>) {
    forall i, j :: 0 <= i < j < |ops| && Timed(ops[i]) && Timed(ops[j]) ==> Clock(ops[i]) <= Clock(ops[j])
  }

  predicate UpTo(items: seq<Item>, last: int) {
    forall x :: x in items ==> x.timestamp <= last
  }

  lemma InsertChronological(items: seq<Item>, item: Item, maxEntries: nat)
    requires Chronological(items) && UpTo(items, item.timestamp)
    ensures Chronological(Put(items, item, maxEntries).0) && UpTo(Put(items, item, maxEntries).0, item.timestamp)
  {
    var all := [item] + items;
    forall j | 0 <= j < |items| ensures items[j].timestamp <= item.timestamp {
      assert items[j] in items;
    }
    assert Chronological(all) && UpTo(all, item.timestamp);
  }

  lemma {:induction false} PopExpiredChronological(items: seq<Item>, k: Key, now: int, timeout: nat)
    requires Chronological(items)
    ensures var live := PopExpired(items, k, now, timeout).0;
            Chronological(live) && forall x :: x in live ==> x in items
    decreases |Deque(items, k)|
  {
    var d := Deque(items, k);
    if d != [] && Expired(d[0], now, timeout) {
      RemoveOldestDeques(items, k, k);
      RemoveOldestChronological(items, k);
      PopExpiredChronological(RemoveOldest(items, k), k, now, timeout);
    }
  }

  lemma PopChronological(items: seq<Item>, k: Key, now: int, timeout: nat)
    requires Chronological(items)
    ensures var after := GetAndPop(items, k, now, timeout).items;
            Chronological(after) && forall x :: x in after ==> x in items
  {
    PopExpiredChronological(items, k, now, timeout);
    var live := if timeout > 0 then PopExpired(items, k, now, timeout).0 else items;
    if Deque(live, k) != [] {
      RemoveOldestChronological(live, k);
    }
  }

  lemma {:induction false} RemoveKeyChronological(items: seq<Item>, k: Key)
    requires Chronological(items)
    ensures Chronological(RemoveKey(items, k)) && forall x :: x in RemoveKey(items, k) ==> x in items
  {
    if items != [] {
      var rest := items[1..];
      RemoveKeyChronological(rest, k);
      assert [items[0]] + rest == items;
      PrependChronological(items[0], RemoveKey(rest, k), rest);
    }
  }

  lemma StepChronological(items: seq<Item>, op: Op, last: int, maxEntries: nat, timeout: nat)
    requires Chronological(items) && UpTo(items, last) && (Timed(op) ==> last <= Clock(op))
    ensures var after := Apply(items, op, maxEntries, timeout).0;
            Chronological(after) && UpTo(after, if Timed(op) then Clock(op) else last)
  {
    match op
    case Insert(item) => InsertChronological(items, item, maxEntries);
    case Pop(k, now) => PopChronological(items, k, now, timeout);
    case DropKey(k) => RemoveKeyChronological(items, k);
    case Clear =>
  }

  lemma {:induction false} RunChronological(items: seq<Item>, ops: seq<Op>, last: int, maxEntries: nat, timeout: nat)
    requires Chronological(items) && UpTo(items, last) && MonotoneClock(ops)
    requires forall i :: 0 <= i < |ops| && Timed(ops[i]) ==> last <= Clock(ops[i])
    ensures Chronological(RunItems(items, ops, maxEntries, timeout))
    decreases |ops|
  {
    if ops != [] {
      var op, rest := ops[0], ops[1..];
      StepChronological(items, op, last, maxEntries, timeout);
      var last' := if Timed(op) then Clock(op) else last;
      forall i | 0 <= i < |rest| && Timed(rest[i]) ensures last' <= Clock(rest[i]) {
        assert rest[i] == ops[i + 1];
      }
      RunChronological(Apply(items, op, maxEntries, timeout).0, rest, last', maxEntries, timeout);
    }
  }

  /** Every state of every run whose clock never goes back lists its entries in the order of their times. */
  lemma EveryRunIsChronological(ops: seq<Op>, maxEntries: nat, timeout: nat)
    requires MonotoneClock(ops)
    ensures Chronological(RunItems([], ops, maxEntries, timeout))
  {
    var start := EarliestClock(ops);
    RunChronological([], ops, start, maxEntries, timeout);
  }

  lemma {:induction false} EarliestClock(ops: seq<Op>) returns (start: int)
    ensures forall i :: 0 <= i < |ops| && Timed(ops[i]) ==> start <= Clock(ops[i])
  {
    start := 0;
    for n := 0 to |ops|
      invariant forall i :: 0 <= i < n && Timed(ops[i]) ==> start <= Clock(ops[i])
    {
      if Timed(ops[n]) && Clock(ops[n]) < start {
        start := Clock(ops[n]);
      }
    }
  }

  /** After any such run, a pop's sweep removes exactly the key's expired entries, oldest first. */
  lemma PopExpiredExactly(ops: seq<Op>, maxEntries: nat, timeout: nat, k: Key, now: int)
    requires MonotoneClock(ops)
    ensures var items := RunItems([], ops, maxEntries, timeout);
            var d := Deque(items, k);
            var (live, evicted) := PopExpired(items, k, now, timeout);
            && |evicted| <= |d|
            && evicted == Handles(d[..|evicted|])
            && Deque(live, k) == d[|evicted|..]
            && (forall i :: 0 <= i < |d| ==> (now - d[i].timestamp > timeout <==> i < |evicted|))
  {
    EveryRunIsChronological(ops, maxEntries, timeout);
    PopsExpiredPrefix(RunItems([], ops, maxEntries, timeout), k, now, timeout);
  }

  /**
    After any such run, `GetAndPop` evicts exactly the key's expired entries (none without a
    timeout) and returns its oldest fresh one.
   */
  lemma GetAndPopReturnsOldestFresh(ops: seq<Op>, maxEntries: nat, timeout: nat, k: Key, now: int)
    requires MonotoneClock(ops)
    ensures var items := RunItems([], ops, maxEntries, timeout);
            var d := Deque(items, k);
            var r := GetAndPop(items, k, now, timeout);
            && |r.evicted| <= |d| && r.evicted == Handles(d[..|r.evicted|])
            && (forall i :: 0 <= i < |d| ==> (timeout > 0 && now - d[i].timestamp > timeout <==> i < |r.evicted|))
            && r.target == (if |r.evicted| < |d| then Some(d[|r.evicted|].handle) else None)
  {
    EveryRunIsChronological(ops, maxEntries, timeout);
    PopsThenTakes(RunItems([], ops, maxEntries, timeout), k, now, timeout);
  }

  lemma Chain(a: multiset<Handle>, p: multiset<Handle>, b: multiset<Handle>, r: multiset<Handle>,
              q: multiset<Handle>, c: multiset<Handle>, t: multiset<Handle>)
    requires a + p == b + r && b + q == c + t
    ensures a + (p + q) == c + (r + t)
  {
    assert a + (p + q) == (a + p) + q;
    assert (b + r) + q == (b + q) + r;
    assert (c + t) + r == c + (r + t);
  }
}
