/** Which key each policy gives up, told from the calls alone: what was inserted and hit when, and what left. */
module PolicyOrder {
  import opened Blocks
  import opened Sequences
  import opened SecondChance
  import opened Policies
  import opened ClockFifo

  function VictimOf(p: PolicyState, op: PolicyOp): Option<Block> {
    if op.Evict? && p.PopVictim().Popped? then Some(p.PopVictim().victim) else None
  }

  // LRU, MRU and FIFO: when each tracked key was inserted and last touched.

  datatype Log = Log(now: nat, inserted: map<Block, nat>, touched: map<Block, nat>) {
    function Forget(key: Block): Log {
      this.(inserted := inserted - {key}, touched := touched - {key})
    }
  }

  const NewLog: Log := Log(0, map[], map[])

  /** A hit touches a tracked key, an insertion touches any; erased and evicted keys are forgotten. */
  function Record(log: Log, op: PolicyOp, victim: Option<Block>): Log {
    var next := log.(now := log.now + 1);
    match op
    case Hit(key) => if key in log.touched then next.(touched := log.touched[key := log.now]) else next
    case Insert(key) =>
      next.(touched := log.touched[key := log.now],
            inserted := if key in log.inserted then log.inserted else log.inserted[key := log.now])
    case Erase(key) => next.Forget(key)
    case Evict => if victim.Some? then next.Forget(victim.value) else next
    case Reset => Log(log.now + 1, map[], map[])
  }

  /** The policy and the log after a run. */
  function RunLog(p: PolicyState, log: Log, ops: seq<PolicyOp>): (PolicyState, Log)
    decreases |ops|
  {
    if ops == [] then (p, log)
    else RunLog(Apply(p, ops[0]), Record(log, ops[0], VictimOf(p, ops[0])), ops[1..])
  }

  /** The list holds the keys of `times`, latest first. */
  ghost predicate LatestFirst(order: seq<Block>, times: map<Block, nat>, now: nat) {
    && NoDup(order) && Elems(order) == times.Keys
    && (forall k :: k in times ==> times[k] < now)
    && (forall i, j :: 0 <= i < j < |order| ==> Later(times, order[i], order[j]))
  }

  predicate Later(times: map<Block, nat>, a: Block, b: Block) {
    a in times && b in times && times[a] > times[b]
  }

  lemma LaterClock(order: seq<Block>, times: map<Block, nat>, now: nat)
    requires LatestFirst(order, times, now)
    ensures LatestFirst(order, times, now + 1)
  {
  }

  lemma {:induction false} WithoutOrdered(order: seq<Block>, times: map<Block, nat>, now: nat, key: Block)
    requires LatestFirst(order, times, now)
    ensures LatestFirst(Without(order, key), times - {key}, now)
  {
    WithoutElems(order, key);
    if key in order {
      var k :| 0 <= k < |order| && order[k] == key;
      WithoutAt(order, k);
      SkippedOrdered(order, times, k);
    } else {
      assert key !in Elems(order);
      assert times - {key} == times;
    }
  }

  lemma SkippedOrdered(order: seq<Block>, times: map<Block, nat>, k: nat)
    requires k < |order| && forall i, j :: 0 <= i < j < |order| ==> Later(times, order[i], order[j])
    ensures var rest := order[..k] + order[k + 1..];
            forall i, j :: 0 <= i < j < |rest| ==> Later(times - {order[k]}, rest[i], rest[j])
  {
    var rest := order[..k] + order[k + 1..];
    forall i, j | 0 <= i < j < |rest| ensures Later(times - {order[k]}, rest[i], rest[j]) {
      var i', j' := if i < k then i else i + 1, if j < k then j else j + 1;
      assert rest[i] == order[i'] && rest[j] == order[j'];
      assert Later(times, order[i'], order[j']);
      assert if i' < k then Later(times, order[i'], order[k]) else Later(times, order[k], order[i']);
      assert if j' < k then Later(times, order[j'], order[k]) else Later(times, order[k], order[j']);
    }
  }

  lemma FrontOrdered(order: seq<Block>, times: map<Block, nat>, now: nat, key: Block)
    requires LatestFirst(order, times, now) && key !in order
    ensures LatestFirst([key] + order, times[key := now], now + 1)
  {
    var times' := times[key := now];
    assert key !in Elems(order);
    assert times' - {key} == times;
    LaterClock(order, times, now);
    forall k | k in order ensures Later(times', key, k) {
      assert k in Elems(order);
    }
    ConsOrdered(key, order, times', now + 1);
  }

  /** A key later than a list, put in front of it. */
  lemma ConsOrdered(x: Block, rest: seq<Block>, times: map<Block, nat>, now: nat)
    requires x in times && times[x] < now && LatestFirst(rest, times - {x}, now)
    requires forall k :: k in rest ==> Later(times, x, k)
    ensures LatestFirst([x] + rest, times, now)
  {
    var all := [x] + rest;
    assert x !in Elems(rest);
    PrependNoDup(x, rest);
    assert Elems(all) == Elems(rest) + {x};
    forall i, j | 0 <= i < j < |all| ensures Later(times, all[i], all[j]) {
      assert all[j] == rest[j - 1];
      if i > 0 {
        assert Later(times - {x}, rest[i - 1], rest[j - 1]);
      }
    }
  }

  lemma TouchedOrdered(order: seq<Block>, times: map<Block, nat>, now: nat, key: Block)
    requires LatestFirst(order, times, now)
    ensures LatestFirst([key] + Without(order, key), times[key := now], now + 1)
  {
    WithoutOrdered(order, times, now, key);
    WithoutElems(order, key);
    FrontOrdered(Without(order, key), times - {key}, now, key);
    assert (times - {key})[key := now] == times[key := now];
  }

  /** The back of the list is the earliest, and its removal leaves the rest in order. */
  lemma BackIsEarliest(order: seq<Block>, times: map<Block, nat>, now: nat)
    requires LatestFirst(order, times, now) && order != []
    ensures var n := |order| - 1;
            && order[n] in times && (forall k :: k in times ==> times[order[n]] <= times[k])
            && LatestFirst(order[..n], times - {order[n]}, now)
  {
    var n := |order| - 1;
    WithoutAt(order, n);
    assert order[..n] + order[n + 1..] == order[..n];
    WithoutOrdered(order, times, now, order[n]);
    assert order[n] in Elems(order);
    forall k | k in times ensures times[order[n]] <= times[k] {
      var i := PlaceOf(order, k);
      assert i < n ==> Later(times, order[i], order[n]);
    }
  }

  /** And the front is the latest. */
  lemma FrontIsLatest(order: seq<Block>, times: map<Block, nat>, now: nat)
    requires LatestFirst(order, times, now) && order != []
    ensures order[0] in times && forall k :: k in times ==> times[order[0]] >= times[k]
    ensures LatestFirst(order[1..], times - {order[0]}, now)
  {
    FrontGone(order);
    WithoutOrdered(order, times, now, order[0]);
    assert order[0] in Elems(order);
    forall k | k in times ensures times[order[0]] >= times[k] {
      var i := PlaceOf(order, k);
      assert 0 < i ==> Later(times, order[0], order[i]);
    }
  }

  lemma FrontGone(order: seq<Block>)
    requires NoDup(order) && order != []
    ensures Without(order, order[0]) == order[1..]
  {
    WithoutAt(order, 0);
    assert order[..0] + order[1..] == order[1..];
  }

  lemma PlaceOf(order: seq<Block>, k: Block) returns (i: nat)
    requires k in Elems(order)
    ensures i < |order| && order[i] == k
  {
    i :| 0 <= i < |order| && order[i] == k;
  }

  /** What each list-based policy keeps its list sorted by. */
  ghost predicate InOrder(p: PolicyState, log: Log) {
    !p.Clock? && log.inserted.Keys == log.touched.Keys &&
    LatestFirst(p.order, if p.Fifo? then log.inserted else log.touched, log.now)
  }

  /** A pop takes one end of the list. */
  lemma PoppedOrdered(p: PolicyState, times: map<Block, nat>, now: nat)
    requires !p.Clock? && LatestFirst(p.order, times, now) && p.order != []
    ensures p.PopVictim().Popped?
    ensures var Popped(v, rest) := p.PopVictim();
            !rest.Clock? && rest.SameKind(p) && v in times && LatestFirst(rest.order, times - {v}, now)
  {
    if p.Mru? {
      FrontIsLatest(p.order, times, now);
    } else {
      BackIsEarliest(p.order, times, now);
    }
  }

  lemma EvictInOrder(p: PolicyState, log: Log)
    requires InOrder(p, log)
    ensures p.PopVictim().Popped? <==> log.touched != map[]
    ensures InOrder(Apply(p, Evict), Record(log, Evict, VictimOf(p, Evict)))
    ensures p.PopVictim().Popped? ==> p.PopVictim().victim in log.touched
  {
    var times := if p.Fifo? then log.inserted else log.touched;
    EmptyListed(p.order, times, log.now);
    assert log.touched == map[] <==> log.touched.Keys == {};
    LaterClock(p.order, times, log.now);
    if p.order != [] {
      PoppedOrdered(p, times, log.now + 1);
      ForgetKeepsOrder(p.PopVictim().rest, log, p.PopVictim().victim);
    }
  }

  lemma EmptyListed(order: seq<Block>, times: map<Block, nat>, now: nat)
    requires LatestFirst(order, times, now)
    ensures order == [] <==> times.Keys == {}
  {
    HasElems(order);
  }

  lemma ForgetKeepsOrder(p: PolicyState, log: Log, key: Block)
    requires !p.Clock? && log.inserted.Keys == log.touched.Keys
    requires LatestFirst(p.order, (if p.Fifo? then log.inserted else log.touched) - {key}, log.now + 1)
    ensures InOrder(p, log.(now := log.now + 1).Forget(key))
  {
  }

  lemma FifoInOrder(p: PolicyState, log: Log, op: PolicyOp)
    requires InOrder(p, log) && p.Fifo? && (op.Hit? || op.Insert?)
    ensures InOrder(Apply(p, op), Record(log, op, None))
  {
    LaterClock(p.order, log.inserted, log.now);
    assert op.key in p.order <==> op.key in Elems(p.order);
    if op.Insert? && op.key !in p.order {
      FrontOrdered(p.order, log.inserted, log.now, op.key);
    }
  }

  lemma RecencyInOrder(p: PolicyState, log: Log, op: PolicyOp)
    requires InOrder(p, log) && !p.Fifo? && (op.Hit? || op.Insert?)
    ensures InOrder(Apply(p, op), Record(log, op, None))
  {
    LaterClock(p.order, log.touched, log.now);
    assert op.key in p.order <==> op.key in Elems(p.order);
    TouchedOrdered(p.order, log.touched, log.now, op.key);
  }

  lemma HitOrInsertInOrder(p: PolicyState, log: Log, op: PolicyOp)
    requires InOrder(p, log) && (op.Hit? || op.Insert?)
    ensures InOrder(Apply(p, op), Record(log, op, None))
  {
    if p.Fifo? {
      FifoInOrder(p, log, op);
    } else {
      RecencyInOrder(p, log, op);
    }
  }

  lemma StepInOrder(p: PolicyState, log: Log, op: PolicyOp)
    requires InOrder(p, log)
    ensures InOrder(Apply(p, op), Record(log, op, VictimOf(p, op))) && Apply(p, op).SameKind(p)
  {
    match op
    case Hit(_) => HitOrInsertInOrder(p, log, op);
    case Insert(_) => HitOrInsertInOrder(p, log, op);
    case Erase(key) =>
      var times := if p.Fifo? then log.inserted else log.touched;
      LaterClock(p.order, times, log.now);
      WithoutOrdered(p.order, times, log.now + 1, key);
    case Evict => EvictInOrder(p, log);
    case Reset => assert Elems<Block>([]) == {};
  }

  lemma {:induction false} RunInOrder(p: PolicyState, log: Log, ops: seq<PolicyOp>)
    requires InOrder(p, log)
    ensures var (p', log') := RunLog(p, log, ops);
            InOrder(p', log') && p'.SameKind(p)
    decreases |ops|
  {
    if ops != [] {
      StepInOrder(p, log, ops[0]);
      RunInOrder(Apply(p, ops[0]), Record(log, ops[0], VictimOf(p, ops[0])), ops[1..]);
    }
  }

  lemma NewInOrder(p: PolicyState)
    requires !p.Clock? && p.order == []
    ensures InOrder(p, NewLog)
  {
    assert Elems<Block>([]) == {};
  }

  /** Over every run from empty, LRU gives up the key whose last insertion or hit is the earliest. */
  lemma LruEvictsLeastRecent(ops: seq<PolicyOp>)
    ensures var (p, log) := RunLog(Lru([]), NewLog, ops);
            && (p.PopVictim().Popped? <==> log.touched != map[])
            && (p.PopVictim().Popped? ==> var v := p.PopVictim().victim;
                v in log.touched && forall k :: k in log.touched ==> log.touched[v] <= log.touched[k])
  {
    NewInOrder(Lru([]));
    RunInOrder(Lru([]), NewLog, ops);
    var (p, log) := RunLog(Lru([]), NewLog, ops);
    EvictInOrder(p, log);
    if p.order != [] {
      BackIsEarliest(p.order, log.touched, log.now);
    }
  }

  /** MRU gives up the key whose last insertion or hit is the latest. */
  lemma MruEvictsMostRecent(ops: seq<PolicyOp>)
    ensures var (p, log) := RunLog(Mru([]), NewLog, ops);
            && (p.PopVictim().Popped? <==> log.touched != map[])
            && (p.PopVictim().Popped? ==> var v := p.PopVictim().victim;
                v in log.touched && forall k :: k in log.touched ==> log.touched[v] >= log.touched[k])
  {
    NewInOrder(Mru([]));
    RunInOrder(Mru([]), NewLog, ops);
    var (p, log) := RunLog(Mru([]), NewLog, ops);
    EvictInOrder(p, log);
    if p.order != [] {
      FrontIsLatest(p.order, log.touched, log.now);
    }
  }

  /** FIFO gives up the key that was inserted first, whatever was hit. */
  lemma FifoEvictsOldest(ops: seq<PolicyOp>)
    ensures var (p, log) := RunLog(Fifo([]), NewLog, ops);
            && (p.PopVictim().Popped? <==> log.inserted != map[])
            && (p.PopVictim().Popped? ==> var v := p.PopVictim().victim;
                v in log.inserted && forall k :: k in log.inserted ==> log.inserted[v] <= log.inserted[k])
  {
    NewInOrder(Fifo([]));
    RunInOrder(Fifo([]), NewLog, ops);
    var (p, log) := RunLog(Fifo([]), NewLog, ops);
    EvictInOrder(p, log);
    if p.order != [] {
      BackIsEarliest(p.order, log.inserted, log.now);
    }
  }

  // CLOCK: how long each tracked key has waited, and whether it was hit meanwhile.

  /** `since` orders the starts of the waits; `hit` tells whether the key was hit since then. */
  datatype Wait = Wait(since: nat, hit: bool)
  datatype Waits = Waits(now: nat, keys: map<Block, Wait>)

  const NoWaits: Waits := Waits(0, map[])

  /** The hand stopped at `v`: keys it passed over lose their hit and start waiting anew, in the same order. */
  function PassedOver(w: Waits, v: Block): map<Block, Wait>
    requires v in w.keys
  {
    map u | u in w.keys && u != v ::
      if w.keys[v].hit || w.keys[u].since < w.keys[v].since then Wait(w.now + w.keys[u].since, false) else w.keys[u]
  }

  function RecordWait(w: Waits, op: PolicyOp, victim: Option<Block>): Waits {
    match op
    case Hit(key) => if key in w.keys then w.(keys := w.keys[key := w.keys[key].(hit := true)]) else w
    case Insert(key) => if key in w.keys then w else Waits(w.now + 1, w.keys[key := Wait(w.now, false)])
    case Erase(key) => w.(keys := w.keys - {key})
    case Evict =>
      if victim.Some? && victim.value in w.keys then Waits(2 * w.now, PassedOver(w, victim.value)) else w
    case Reset => w.(keys := map[])
  }

  function RunWaits(p: PolicyState, w: Waits, ops: seq<PolicyOp>): (PolicyState, Waits)
    decreases |ops|
  {
    if ops == [] then (p, w)
    else RunWaits(Apply(p, ops[0]), RecordWait(w, ops[0], VictimOf(p, ops[0])), ops[1..])
  }

  predicate WaitsLess(keys: map<Block, Wait>, a: Block, b: Block) {
    a in keys && b in keys && keys[a].since < keys[b].since
  }

  predicate EntryWaits(keys: map<Block, Wait>, e: ClockEntry, now: nat) {
    e.key in keys && e.referenced == keys[e.key].hit && keys[e.key].since < now
  }

  /** The queue holds the waiting keys, longest wait first, with their hits as reference bits. */
  ghost predicate Queued(q: Queue, w: Waits) {
    && (forall k :: k in w.keys ==> k in KeysOf(q))
    && (forall i :: 0 <= i < |q| ==> EntryWaits(w.keys, q[i], w.now))
    && (forall i, j :: 0 <= i < j < |q| ==> WaitsLess(w.keys, q[i].key, q[j].key))
  }

  lemma QueuedKeys(q: Queue, w: Waits)
    requires Queued(q, w)
    ensures NoDup(KeysOf(q)) && forall k :: k in KeysOf(q) <==> k in w.keys
  {
    forall i, j | 0 <= i < j < |q| ensures KeysOf(q)[i] != KeysOf(q)[j] {
      assert WaitsLess(w.keys, q[i].key, q[j].key);
    }
    forall k | k in KeysOf(q) ensures k in w.keys {
      var i :| 0 <= i < |q| && KeysOf(q)[i] == k;
      assert EntryWaits(w.keys, q[i], w.now);
    }
  }

  lemma HitQueued(q: Queue, w: Waits, key: Block)
    requires Queued(q, w)
    ensures Queued(Clock(q).OnHit(key).queue, RecordWait(w, Hit(key), None))
  {
    QueuedKeys(q, w);
    var r, w' := Clock(q).OnHit(key).queue, RecordWait(w, Hit(key), None);
    if key in w.keys {
      assert KeysOf(r) == KeysOf(q);
      forall i | 0 <= i < |r| ensures EntryWaits(w'.keys, r[i], w'.now) {
        assert EntryWaits(w.keys, q[i], w.now) && r[i].key == KeysOf(r)[i];
      }
      forall i, j | 0 <= i < j < |r| ensures WaitsLess(w'.keys, r[i].key, r[j].key) {
        assert WaitsLess(w.keys, q[i].key, q[j].key) && r[i].key == KeysOf(r)[i] && r[j].key == KeysOf(r)[j];
      }
    }
  }

  lemma InsertQueued(q: Queue, w: Waits, key: Block)
    requires Queued(q, w)
    ensures Queued(Clock(q).OnInsert(key).queue, RecordWait(w, Insert(key), None))
  {
    QueuedKeys(q, w);
    if key !in w.keys {
      var r, w' := q + [ClockEntry(key, false)], RecordWait(w, Insert(key), None);
      assert KeysOf(r) == KeysOf(q) + [key];
      forall i | 0 <= i < |r| ensures EntryWaits(w'.keys, r[i], w'.now) {
        assert i < |q| ==> EntryWaits(w.keys, q[i], w.now) && q[i].key != key by { assert i < |q| ==> KeysOf(q)[i] in KeysOf(q); }
      }
      forall i, j | 0 <= i < j < |r| ensures WaitsLess(w'.keys, r[i].key, r[j].key) {
        assert EntryWaits(w.keys, q[i], w.now) && KeysOf(q)[i] in KeysOf(q);
        if j < |q| {
          assert WaitsLess(w.keys, q[i].key, q[j].key) && KeysOf(q)[j] in KeysOf(q);
        }
      }
    }
  }

  lemma EraseQueued(q: Queue, w: Waits, key: Block)
    requires Queued(q, w)
    ensures Queued(Remove(q, key), w.(keys := w.keys - {key}))
  {
    QueuedKeys(q, w);
    if key in KeysOf(q) {
      var k := Position(q, key);
      forall j | 0 <= j < |q| && j != k ensures q[j].key != q[k].key {
        assert KeysOf(q)[j] != KeysOf(q)[k];
      }
      RemoveAt(q, k);
      SkippedQueued(q, w, k);
    } else {
      RemoveUntracked(q, key);
      assert w.keys - {key} == w.keys;
    }
  }

  lemma SkippedQueued(q: Queue, w: Waits, k: nat)
    requires Queued(q, w) && k < |q|
    ensures Queued(q[..k] + q[k + 1..], w.(keys := w.keys - {q[k].key}))
  {
    var r, keys' := q[..k] + q[k + 1..], w.keys - {q[k].key};
    forall i | 0 <= i < |r| ensures EntryWaits(keys', r[i], w.now) {
      SkippedEntry(q, w, k, if i < k then i else i + 1);
    }
    forall i, j | 0 <= i < j < |r| ensures WaitsLess(keys', r[i].key, r[j].key) {
      SkippedLess(q, w, k, if i < k then i else i + 1, if j < k then j else j + 1);
    }
    forall x | x in keys' ensures x in KeysOf(r) {
      SkippedKey(q, k, x);
    }
  }

  lemma SkippedKey(q: Queue, k: nat, x: Block)
    requires k < |q| && x in KeysOf(q) && x != q[k].key
    ensures x in KeysOf(q[..k] + q[k + 1..])
  {
    var r, i := q[..k] + q[k + 1..], Position(q, x);
    assert KeysOf(r)[if i < k then i else i - 1] == x;
  }

  lemma SkippedLess(q: Queue, w: Waits, k: nat, i: nat, j: nat)
    requires Queued(q, w) && k < |q| && i < j < |q| && i != k && j != k
    ensures WaitsLess(w.keys - {q[k].key}, q[i].key, q[j].key)
  {
    SkippedEntry(q, w, k, i);
    SkippedEntry(q, w, k, j);
    assert WaitsLess(w.keys, q[i].key, q[j].key);
  }

  lemma SkippedEntry(q: Queue, w: Waits, k: nat, i: nat)
    requires Queued(q, w) && k < |q| && i < |q| && i != k
    ensures EntryWaits(w.keys - {q[k].key}, q[i], w.now)
  {
    assert EntryWaits(w.keys, q[i], w.now);
    assert i < k ==> WaitsLess(w.keys, q[i].key, q[k].key);
    assert k < i ==> WaitsLess(w.keys, q[k].key, q[i].key);
  }

  /** The hand passes the first `j` entries and takes the next; with every bit set it passes all and takes the first. */
  lemma SweepPassesOver(q: Queue, w: Waits, j: nat, rest: Queue)
    requires Queued(q, w) && j < |q| && (forall i :: 0 <= i < j ==> q[i].referenced)
    requires if q[j].referenced then j == 0 && rest == Cleared(q[1..]) else rest == q[j + 1..] + Cleared(q[..j])
    ensures Queued(rest, Waits(2 * w.now, PassedOver(w, q[j].key)))
  {
    var v, n := q[j].key, |q|;
    assert EntryWaits(w.keys, q[j], w.now);
    var keys' := PassedOver(w, v);
    assert |rest| == n - 1;
    forall a | 0 <= a < |rest| ensures rest[a] == Passed(q, j, a) && EntryWaits(keys', rest[a], 2 * w.now) {
      PassedEntry(q, w, j, Origin(n, j, a));
      assert EntryWaits(w.keys, q[Origin(n, j, a)], w.now);
    }
    forall a, b | 0 <= a < b < |rest| ensures WaitsLess(keys', rest[a].key, rest[b].key) {
      assert rest[a] == Passed(q, j, a) && rest[b] == Passed(q, j, b);
      PassedLess(q, w, j, a, b);
    }
    forall x | x in keys' ensures x in KeysOf(rest) {
      var a := PassedKey(q, j, x);
      assert rest[a] == Passed(q, j, a);
      assert KeysOf(rest)[a] == x;
    }
  }

  lemma PassedKey(q: Queue, j: nat, x: Block) returns (a: nat)
    requires j < |q| && x in KeysOf(q) && x != q[j].key
    ensures a < |q| - 1 && Passed(q, j, a).key == x
  {
    var i := Position(q, x);
    a := if i > j then i - j - 1 else |q| - j - 1 + i;
  }

  /** The entry at place `a` once the hand has stopped at `j`. */
  function Passed(q: Queue, j: nat, a: nat): ClockEntry
    requires j < |q| && a < |q| - 1
  {
    var i := Origin(|q|, j, a);
    if q[j].referenced || i < j then ClockEntry(q[i].key, false) else q[i]
  }

  lemma PassedLess(q: Queue, w: Waits, j: nat, a: nat, b: nat)
    requires Queued(q, w) && j < |q| && a < b < |q| - 1 && (q[j].referenced ==> j == 0)
    ensures EntryWaits(w.keys, q[j], w.now)
    ensures WaitsLess(PassedOver(w, q[j].key), Passed(q, j, a).key, Passed(q, j, b).key)
  {
    var i, k := Origin(|q|, j, a), Origin(|q|, j, b);
    assert EntryWaits(w.keys, q[j], w.now);
    PassedEntry(q, w, j, i);
    PassedEntry(q, w, j, k);
    assert i < k ==> WaitsLess(w.keys, q[i].key, q[k].key);
    assert EntryWaits(w.keys, q[i], w.now) && EntryWaits(w.keys, q[k], w.now);
  }

  /** Where the entry at place `a` after the sweep was before it. */
  function Origin(n: nat, j: nat, a: nat): nat
    requires j < n && a < n - 1
  {
    if a < n - j - 1 then a + j + 1 else a - (n - j - 1)
  }

  lemma PassedEntry(q: Queue, w: Waits, j: nat, i: nat)
    requires Queued(q, w) && j < |q| && i < |q| && i != j
    ensures var u, v := q[i].key, q[j].key;
            && u in w.keys && v in w.keys && u in PassedOver(w, v)
            && PassedOver(w, v)[u] ==
               if q[j].referenced || i < j then Wait(w.now + w.keys[u].since, false) else w.keys[u]
  {
    assert EntryWaits(w.keys, q[i], w.now) && EntryWaits(w.keys, q[j], w.now);
    if i < j {
      assert WaitsLess(w.keys, q[i].key, q[j].key);
    } else {
      assert WaitsLess(w.keys, q[j].key, q[i].key);
    }
  }

  lemma {:induction false} FirstClear(q: Queue) returns (j: nat)
    ensures j <= |q| && (forall i :: 0 <= i < j ==> q[i].referenced) && (j < |q| ==> !q[j].referenced)
  {
    j := 0;
    while j < |q| && q[j].referenced
      invariant j <= |q| && forall i :: 0 <= i < j ==> q[i].referenced
    {
      j := j + 1;
    }
  }

  /** The victim has waited longest among the keys not hit meanwhile, or among all when each was hit. */
  ghost predicate LongestWait(w: Waits, v: Block) {
    v in w.keys &&
    if exists u :: u in w.keys && !w.keys[u].hit
    then !w.keys[v].hit && forall u :: u in w.keys && !w.keys[u].hit ==> w.keys[v].since <= w.keys[u].since
    else forall u :: u in w.keys ==> w.keys[v].since <= w.keys[u].since
  }

  lemma VictimWaitsLongest(q: Queue, w: Waits, j: nat)
    requires Queued(q, w) && j < |q| && (forall i :: 0 <= i < j ==> q[i].referenced)
    requires q[j].referenced ==> j == 0 && forall i :: 0 <= i < |q| ==> q[i].referenced
    ensures LongestWait(w, q[j].key)
  {
    assert EntryWaits(w.keys, q[j], w.now);
    forall u | u in w.keys
      ensures w.keys[u].hit == q[Position(q, u)].referenced
      ensures !w.keys[u].hit || j == 0 ==> w.keys[q[j].key].since <= w.keys[u].since
    {
      var i := Position(q, u);
      assert EntryWaits(w.keys, q[i], w.now);
      assert j < i ==> WaitsLess(w.keys, q[j].key, q[i].key);
    }
  }

  lemma EvictQueued(q: Queue, w: Waits)
    requires Queued(q, w) && q != []
    ensures var Popped(v, rest) := Clock(q).PopVictim();
            && LongestWait(w, v) && rest.Clock?
            && Queued(rest.queue, Waits(2 * w.now, PassedOver(w, v)))
  {
    var j := FirstClear(q);
    if j < |q| {
      SweepTakesFirstClear(q, j);
      SweepPassesOver(q, w, j, Sweep(q).1);
      VictimWaitsLongest(q, w, j);
    } else {
      SweepAllReferenced(q);
      SweepPassesOver(q, w, 0, Sweep(q).1);
      VictimWaitsLongest(q, w, 0);
    }
  }

  ghost predicate Waiting(p: PolicyState, w: Waits) {
    p.Clock? && Queued(p.queue, w)
  }

  lemma EmptyQueued(q: Queue, w: Waits)
    requires Queued(q, w)
    ensures q == [] <==> w.keys == map[]
  {
    QueuedKeys(q, w);
    assert |q| > 0 ==> KeysOf(q)[0] in KeysOf(q);
  }

  lemma StepWaiting(p: PolicyState, w: Waits, op: PolicyOp)
    requires Waiting(p, w)
    ensures Waiting(Apply(p, op), RecordWait(w, op, VictimOf(p, op)))
  {
    match op
    case Hit(key) => HitQueued(p.queue, w, key);
    case Insert(key) => InsertQueued(p.queue, w, key);
    case Erase(key) => EraseQueued(p.queue, w, key);
    case Evict => if p.queue != [] { EvictQueued(p.queue, w); }
    case Reset =>
  }

  lemma {:induction false} RunWaiting(p: PolicyState, w: Waits, ops: seq<PolicyOp>)
    requires Waiting(p, w)
    ensures Waiting(RunWaits(p, w, ops).0, RunWaits(p, w, ops).1)
    decreases |ops|
  {
    if ops != [] {
      StepWaiting(p, w, ops[0]);
      RunWaiting(Apply(p, ops[0]), RecordWait(w, ops[0], VictimOf(p, ops[0])), ops[1..]);
    }
  }

  /**
    Over every run from empty, CLOCK gives up the key that has waited longest among those not
    hit since their insertion or their last sparing; if each was hit, the longest-waiting of all.
   */
  lemma ClockGivesSecondChances(ops: seq<PolicyOp>)
    ensures var (p, w) := RunWaits(Clock([]), NoWaits, ops);
            && (p.PopVictim().Popped? <==> w.keys != map[])
            && (p.PopVictim().Popped? ==> LongestWait(w, p.PopVictim().victim))
  {
    RunWaiting(Clock([]), NoWaits, ops);
    var (p, w) := RunWaits(Clock([]), NoWaits, ops);
    EmptyQueued(p.queue, w);
    if p.queue != [] {
      EvictQueued(p.queue, w);
    }
  }

  /** In particular a hit saves its key as long as another tracked key has not been hit. */
  lemma HitKeyIsSpared(q: Queue, key: Block, j: nat)
    requires NoDup(KeysOf(q)) && key in KeysOf(q) && j < |q| && !q[j].referenced && q[j].key != key
    ensures Clock(q).OnHit(key).PopVictim().Popped? && Clock(q).OnHit(key).PopVictim().victim != key
  {
    var r := Clock(q).OnHit(key).queue;
    assert forall i :: 0 <= i < |r| ==> r[i].key == KeysOf(r)[i] == q[i].key;
    assert !r[j].referenced;
    var f := FirstClear(r);
    SweepTakesFirstClear(r, f);
  }
}
