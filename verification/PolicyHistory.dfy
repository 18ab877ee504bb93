/** What the policy storage holds and answers, told from the list of calls: payloads, times and allocations. */
module PolicyHistory {
  import opened Blocks
  import opened Sequences
  import opened Policies
  import opened PolicyGroups
  import opened PolicyStorage

  // The last Put of each key.

  /** A payload that was put, and when. */
  datatype Record = Record(entry: CacheEntry, at: int)

  function LastPut(history: map<Block, Record>, op: Op): map<Block, Record> {
    if op.Put? then history[op.key := Record(CacheEntry(op.chunk.bytes, op.tag), op.now)] else history
  }

  function History(history: map<Block, Record>, ops: seq<Op>): map<Block, Record>
    decreases |ops|
  {
    if ops == [] then history else History(LastPut(history, ops[0]), ops[1..])
  }

  /** Every payload offered for a key is charged the same. */
  predicate ChargedByKey(op: Op, charge: Block -> nat) {
    op.Put? ==> Charge(op.chunk) == charge(op.key)
  }

  ghost predicate GroupCurrent(g: GroupState, history: map<Block, Record>, charge: Block -> nat) {
    forall k :: k in g.entries ==>
      k in history && Record(g.entries[k].entry, g.entries[k].insertedAt) == history[k] && g.entries[k].bytes == charge(k)
  }

  ghost predicate Current(s: StorageState, history: map<Block, Record>, charge: Block -> nat) {
    forall i :: 0 <= i < |s.groups| ==> GroupCurrent(s.groups[i], history, charge)
  }

  /** An entry that is present fits its group, so another chunk for its key fits too. */
  lemma GroupPutStaysCurrent(g: GroupState, op: Op, history: map<Block, Record>, charge: Block -> nat)
    requires g.Inv() && GroupCurrent(g, history, charge) && op.Put? && ChargedByKey(op, charge)
    ensures GroupCurrent(g.Put(op.key, op.chunk, op.tag, op.now), LastPut(history, op), charge)
  {
    var r := g.Put(op.key, op.chunk, op.tag, op.now);
    PutInv(g, op.key, op.chunk, op.tag, op.now);
    if g.bounded && Charge(op.chunk) > g.capacity {
      if op.key in g.entries {
        TotalChargeSplit(g.entries, op.key);
      }
    } else {
      assert r.entries[op.key].bytes == charge(op.key);
    }
  }

  lemma PutStaysCurrent(s: StorageState, op: Op, history: map<Block, Record>, charge: Block -> nat)
    requires Inv(s) && Current(s, history, charge) && op.Put? && ChargedByKey(op, charge)
    ensures Current(Step(s, op), LastPut(history, op), charge)
  {
    var i := s.GroupFor(op.key.fname);
    GroupPutStaysCurrent(s.groups[i], op, history, charge);
    forall j | 0 <= j < |s.groups|
      ensures GroupCurrent(Step(s, op).groups[j], LastPut(history, op), charge)
    {
      if j != i {
        assert GroupCurrent(s.groups[j], history, charge);
        assert i == Scan(s.groups, op.key.fname);
        assert op.key !in s.groups[j].entries;
      }
    }
  }

  lemma StepStaysCurrent(s: StorageState, op: Op, history: map<Block, Record>, charge: Block -> nat)
    requires Inv(s) && Current(s, history, charge) && ChargedByKey(op, charge)
    ensures Current(Step(s, op), LastPut(history, op), charge)
  {
    match op
    case Put(_, _, _, _) =>
      PutStaysCurrent(s, op, history, charge);
    case Get(key, tag, now) =>
      GetInv(s.groups[s.GroupFor(key.fname)], key, tag, s.timeout, now);
    case ClearFile(_, doomed) =>
      forall i | 0 <= i < |s.groups|
        ensures s.groups[i].DropAll(doomed).entries == s.groups[i].entries - Elems(doomed)
      {
        DropAllInv(s.groups[i], doomed);
      }
    case _ =>
  }

  lemma {:induction false} RunStaysCurrent(
    s: StorageState, ops: seq<Op>, history: map<Block, Record>, charge: Block -> nat)
    requires Inv(s) && Current(s, history, charge)
    requires forall i :: 0 <= i < |ops| ==> ChargedByKey(ops[i], charge)
    ensures Inv(Run(s, ops)) && Current(Run(s, ops), History(history, ops), charge) && Run(s, ops).timeout == s.timeout
    decreases |ops|
  {
    if ops != [] {
      StepInv(s, ops[0]);
      StepStaysCurrent(s, ops[0], history, charge);
      RunStaysCurrent(Step(s, ops[0]), ops[1..], LastPut(history, ops[0]), charge);
    }
  }

  /** The chunks the readers and the remap hand over: page-rounded for the key's size. */
  predicate ReaderPut(op: Op, page: nat)
    requires page > 0
  {
    op.Put? ==> |op.chunk.bytes| == op.key.size && op.chunk.capacity == PageRoundUp(op.key.size, page)
  }

  /** The budget, the spec and the calls are as the readers make them. */
  ghost predicate ReaderRun(maxBytes: nat, spec: seq<FilePolicy>, ops: seq<Op>, page: nat) {
    (maxBytes > 0 ==> ExplicitBytes(spec) <= maxBytes) && page > 0 && forall i :: 0 <= i < |ops| ==> ReaderPut(ops[i], page)
  }

  lemma ReaderRunIsCurrent(maxBytes: nat, spec: seq<FilePolicy>, fallback: PolicyState, timeout: nat, ops: seq<Op>,
                           page: nat)
    requires ReaderRun(maxBytes, spec, ops, page)
    ensures var s := Run(Initial(maxBytes, spec, fallback, timeout), ops);
            && Inv(s) && s.timeout == timeout
            && Current(s, History(map[], ops), (k: Block) => PageRoundUp(k.size, page))
  {
    var init := Initial(maxBytes, spec, fallback, timeout);
    InitialInv(maxBytes, spec, fallback, timeout);
    assert forall i :: 0 <= i < |init.groups| ==> init.groups[i].entries == map[];
    forall i | 0 <= i < |ops| ensures ChargedByKey(ops[i], (k: Block) => PageRoundUp(k.size, page)) {
      assert ReaderPut(ops[i], page);
    }
    RunStaysCurrent(init, ops, map[], (k: Block) => PageRoundUp(k.size, page));
  }

  /** After any run of reader-made calls, a hit is the most recent payload put under that key. */
  lemma HitIsLastPut(maxBytes: nat, spec: seq<FilePolicy>, fallback: PolicyState, timeout: nat, ops: seq<Op>,
                     page: nat, key: Block, tag: string, now: int)
    requires ReaderRun(maxBytes, spec, ops, page)
    ensures var hit := Lookup(Run(Initial(maxBytes, spec, fallback, timeout), ops), key, tag, now);
            hit.Some? ==> key in History(map[], ops) && hit.value == History(map[], ops)[key].entry
  {
    ReaderRunIsCurrent(maxBytes, spec, fallback, timeout, ops, page);
    var s := Run(Initial(maxBytes, spec, fallback, timeout), ops);
    GetInv(s.groups[s.GroupFor(key.fname)], key, tag, s.timeout, now);
  }

  /** A key is held when its file's group has an entry for it. */
  predicate Held(s: StorageState, key: Block)
    requires s.groups != []
  {
    key in s.groups[Scan(s.groups, key.fname)].entries
  }

  /**
    After any run of reader-made calls, a lookup hits exactly when the key is held, the tag of
    its last Put is acceptable, and that Put is younger than the timeout, if there is one.
   */
  lemma LookupHitsIff(maxBytes: nat, spec: seq<FilePolicy>, fallback: PolicyState, timeout: nat, ops: seq<Op>,
                      page: nat, key: Block, tag: string, now: int)
    requires ReaderRun(maxBytes, spec, ops, page)
    ensures var s, history := Run(Initial(maxBytes, spec, fallback, timeout), ops), History(map[], ops);
            Lookup(s, key, tag, now).Some? <==>
              && Held(s, key) && key in history
              && (tag == "" || history[key].entry.tag == tag)
              && (timeout == 0 || now - history[key].at < timeout)
  {
    ReaderRunIsCurrent(maxBytes, spec, fallback, timeout, ops, page);
    var s := Run(Initial(maxBytes, spec, fallback, timeout), ops);
    var i := s.GroupFor(key.fname);
    assert i == Scan(s.groups, key.fname) && GroupCurrent(s.groups[i], History(map[], ops), (k: Block) => PageRoundUp(k.size, page));
    GetInv(s.groups[i], key, tag, s.timeout, now);
  }

  // What the cached blocks occupy.

  ghost function AnyOf(keys: set<Block>): (k: Block)
    requires keys != {}
    ensures k in keys
  {
    var k :| k in keys;
    k
  }

  /** The memory that page-rounded buffers for these keys take. */
  ghost function Footprint(keys: set<Block>, page: nat): nat
    requires page > 0
    decreases |keys|
  {
    if keys == {} then 0 else
    var k := AnyOf(keys);
    PageRoundUp(k.size, page) + Footprint(keys - {k}, page)
  }

  lemma {:induction false} FootprintSplit(keys: set<Block>, page: nat, key: Block)
    requires page > 0 && key in keys
    ensures Footprint(keys, page) == PageRoundUp(key.size, page) + Footprint(keys - {key}, page)
    decreases |keys|
  {
    var k := AnyOf(keys);
    if k != key {
      FootprintSplit(keys - {k}, page, key);
      FootprintSplit(keys - {key}, page, k);
      assert keys - {k} - {key} == keys - {key} - {k};
    }
  }

  lemma {:induction false} FootprintUnion(a: set<Block>, b: set<Block>, page: nat)
    requires page > 0 && a !! b
    ensures Footprint(a + b, page) == Footprint(a, page) + Footprint(b, page)
    decreases |a|
  {
    if a == {} {
      assert a + b == b;
    } else {
      var k := AnyOf(a);
      FootprintSplit(a + b, page, k);
      assert a + b - {k} == (a - {k}) + b;
      FootprintUnion(a - {k}, b, page);
    }
  }

  lemma {:induction false} ChargesAreFootprint(m: map<Block, Charged>, page: nat)
    requires page > 0 && forall k :: k in m ==> m[k].bytes == PageRoundUp(k.size, page)
    ensures TotalCharge(m) == Footprint(m.Keys, page)
    decreases |m|
  {
    if m != map[] {
      var k := AnyKey(m);
      ChargesAreFootprint(m - {k}, page);
      assert (m - {k}).Keys == m.Keys - {k};
      FootprintSplit(m.Keys, page, k);
    } else {
      assert m.Keys == {};
    }
  }

  /** The keys of the groups from `i` on. */
  ghost function KeysFrom(groups: seq<GroupState>, i: nat): set<Block>
    requires i <= |groups|
    decreases |groups| - i
  {
    if i == |groups| then {} else groups[i].entries.Keys + KeysFrom(groups, i + 1)
  }

  lemma {:induction false} KeysFromMember(groups: seq<GroupState>, i: nat, k: Block)
    requires i <= |groups|
    ensures k in KeysFrom(groups, i) <==> exists j :: i <= j < |groups| && k in groups[j].entries
    decreases |groups| - i
  {
    if i < |groups| {
      KeysFromMember(groups, i + 1, k);
    }
  }

  ghost function UsedFrom(groups: seq<GroupState>, i: nat): int
    requires i <= |groups|
    decreases |groups| - i
  {
    if i == |groups| then 0 else groups[i].used + UsedFrom(groups, i + 1)
  }

  lemma {:induction false} UsedFromTotal(groups: seq<GroupState>, i: nat)
    requires i <= |groups|
    ensures UsedFrom(groups, i) == TotalUsed(groups[i..])
    decreases |groups| - i
  {
    if i < |groups| {
      UsedFromTotal(groups, i + 1);
      assert groups[i..][1..] == groups[i + 1..];
    }
  }

  lemma {:induction false} UsedIsFootprint(s: StorageState, history: map<Block, Record>, page: nat, i: nat)
    requires page > 0 && Inv(s) && Current(s, history, (k: Block) => PageRoundUp(k.size, page)) && i <= |s.groups|
    ensures UsedFrom(s.groups, i) == Footprint(KeysFrom(s.groups, i), page)
    decreases |s.groups| - i
  {
    if i < |s.groups| {
      var g := s.groups[i];
      UsedIsFootprint(s, history, page, i + 1);
      assert GroupCurrent(g, history, (k: Block) => PageRoundUp(k.size, page));
      ChargesAreFootprint(g.entries, page);
      forall k | k in KeysFrom(s.groups, i + 1) ensures k !in g.entries {
        KeysFromMember(s.groups, i + 1, k);
      }
      FootprintUnion(g.entries.Keys, KeysFrom(s.groups, i + 1), page);
    }
  }

  /** After any run of reader-made calls, the buffers of all cached blocks together fit the budget. */
  lemma MemoryStaysWithinBudget(maxBytes: nat, spec: seq<FilePolicy>, fallback: PolicyState, timeout: nat,
                                ops: seq<Op>, page: nat)
    requires maxBytes > 0 && ReaderRun(maxBytes, spec, ops, page)
    ensures var s := Run(Initial(maxBytes, spec, fallback, timeout), ops);
            Footprint(KeysFrom(s.groups, 0), page) <= maxBytes
  {
    ReaderRunIsCurrent(maxBytes, spec, fallback, timeout, ops, page);
    EveryRunKeepsBudgets(maxBytes, spec, fallback, timeout, ops);
    var s := Run(Initial(maxBytes, spec, fallback, timeout), ops);
    UsedIsFootprint(s, History(map[], ops), page, 0);
    UsedFromTotal(s.groups, 0);
    assert s.groups[0..] == s.groups;
  }

  // Every entry of every run was put by one of its calls.

  /** The call that made the entry: same key, payload and time, charged for its allocation. */
  predicate MadeBy(op: Op, k: Block, e: Charged) {
    && op.Put? && op.key == k && e.entry == CacheEntry(op.chunk.bytes, op.tag) && e.insertedAt == op.now
    && e.bytes == if op.chunk.capacity > 0 then op.chunk.capacity else |op.chunk.bytes|
  }

  ghost predicate WasPut(past: seq<Op>, k: Block, e: Charged) {
    exists i :: 0 <= i < |past| && MadeBy(past[i], k, e)
  }

  ghost predicate AllPut(past: seq<Op>, s: StorageState) {
    forall i, k :: 0 <= i < |s.groups| && k in s.groups[i].entries ==> WasPut(past, k, s.groups[i].entries[k])
  }

  lemma StillPut(past: seq<Op>, op: Op, k: Block, e: Charged)
    requires WasPut(past, k, e) || MadeBy(op, k, e)
    ensures WasPut(past + [op], k, e)
  {
    if WasPut(past, k, e) {
      var i :| 0 <= i < |past| && MadeBy(past[i], k, e);
      assert (past + [op])[i] == past[i];
    } else {
      assert (past + [op])[|past|] == op;
    }
  }

  /** What one call can leave in a group: old entries, or the one it makes. */
  lemma EntryOrigin(s: StorageState, op: Op, i: nat, k: Block)
    requires Inv(s) && i < |s.groups| && k in Step(s, op).groups[i].entries
    ensures var e := Step(s, op).groups[i].entries[k];
            MadeBy(op, k, e) || (k in s.groups[i].entries && e == s.groups[i].entries[k])
  {
    match op
    case Put(key, chunk, tag, now) => PutInv(s.groups[s.GroupFor(key.fname)], key, chunk, tag, now);
    case Get(key, tag, now) => GetInv(s.groups[s.GroupFor(key.fname)], key, tag, s.timeout, now);
    case ClearFile(_, doomed) => DropAllInv(s.groups[i], doomed);
    case _ =>
  }

  lemma StepAllPut(s: StorageState, past: seq<Op>, op: Op)
    requires Inv(s) && AllPut(past, s)
    ensures AllPut(past + [op], Step(s, op))
  {
    var s' := Step(s, op);
    forall i, k | 0 <= i < |s'.groups| && k in s'.groups[i].entries
      ensures WasPut(past + [op], k, s'.groups[i].entries[k])
    {
      EntryOrigin(s, op, i, k);
      StillPut(past, op, k, s'.groups[i].entries[k]);
    }
  }

  lemma {:induction false} RunAllPut(s: StorageState, past: seq<Op>, ops: seq<Op>, all: seq<Op>)
    requires Inv(s) && AllPut(past, s) && past + ops == all
    ensures AllPut(all, Run(s, ops))
    decreases |ops|
  {
    if ops == [] {
      assert past == all;
    } else {
      StepInv(s, ops[0]);
      StepAllPut(s, past, ops[0]);
      Regroup(past, ops);
      RunAllPut(Step(s, ops[0]), past + [ops[0]], ops[1..], all);
    }
  }

  lemma Regroup(past: seq<Op>, ops: seq<Op>)
    requires ops != []
    ensures (past + [ops[0]]) + ops[1..] == past + ops
  {
  }

  /** Over every run of any calls, each entry has the payload, time and allocation of a Put of its key. */
  lemma EveryEntryWasPut(maxBytes: nat, spec: seq<FilePolicy>, fallback: PolicyState, timeout: nat, ops: seq<Op>)
    requires maxBytes > 0 ==> ExplicitBytes(spec) <= maxBytes
    ensures AllPut(ops, Run(Initial(maxBytes, spec, fallback, timeout), ops))
  {
    var init := Initial(maxBytes, spec, fallback, timeout);
    InitialInv(maxBytes, spec, fallback, timeout);
    assert forall i :: 0 <= i < |init.groups| ==> init.groups[i].entries == map[];
    assert [] + ops == ops;
    RunAllPut(init, [], ops, ops);
  }
}
