/** Both storage backends keep the contract the read path relies on. */
module StorageContract {
  import opened Blocks
  import opened Sequences
  import opened PolicyGroups
  import opened CacheSystem
  import S = PolicyStorage
  import L = StockLru
  import R = RemapEntries

  /** The entries of all groups together. */
  ghost function ContentsOf(groups: seq<GroupState>): Store {
    if groups == [] then map[]
    else
      var n := |groups| - 1;
      ContentsOf(groups[..n]) + map k | k in groups[n].entries :: groups[n].entries[k].entry
  }

  lemma {:induction false} ContentsDomain(groups: seq<GroupState>, k: Block)
    ensures k in ContentsOf(groups) <==> exists i :: 0 <= i < |groups| && k in groups[i].entries
  {
    if groups != [] {
      var n := |groups| - 1;
      ContentsDomain(groups[..n], k);
      if k in ContentsOf(groups[..n]) {
        var i :| 0 <= i < n && k in groups[..n][i].entries;
        assert groups[i] == groups[..n][i];
      }
      if exists i :: 0 <= i < |groups| && k in groups[i].entries {
        var i :| 0 <= i < |groups| && k in groups[i].entries;
        if i < n {
          assert groups[..n][i] == groups[i];
        }
      }
    }
  }

  /** Since a block lives in one group only, each lookup finds the payload of that group. */
  lemma {:induction false} ContentsAt(groups: seq<GroupState>, i: nat, k: Block)
    requires i < |groups| && k in groups[i].entries
    requires forall j :: 0 <= j < |groups| && k in groups[j].entries ==> j == i
    ensures k in ContentsOf(groups) && ContentsOf(groups)[k] == groups[i].entries[k].entry
  {
    var n := |groups| - 1;
    if i < n {
      ContentsAt(groups[..n], i, k);
      assert k !in groups[n].entries;
    }
  }

  lemma InOneGroup(s: S.StorageState, i: nat, k: Block)
    requires S.Inv(s) && i < |s.groups| && k in s.groups[i].entries
    ensures k in ContentsOf(s.groups) && ContentsOf(s.groups)[k] == s.groups[i].entries[k].entry
  {
    ContentsAt(s.groups, i, k);
  }

  /** A lookup that hits returns a cached entry with an acceptable tag, and no lookup adds anything. */
  lemma PolicyHitIsCached(s: S.StorageState, key: Block, tag: string, now: int)
    requires S.Inv(s)
    ensures var hit := S.Lookup(s, key, tag, now);
            hit.Some? ==> key in ContentsOf(s.groups) && ContentsOf(s.groups)[key] == hit.value && ValidTag(hit.value.tag, tag)
    ensures Submap(ContentsOf(S.Step(s, S.Get(key, tag, now)).groups), ContentsOf(s.groups))
  {
    PolicyStepForgetsOrPuts(s, S.Get(key, tag, now));
    var i := s.GroupFor(key.fname);
    GetInv(s.groups[i], key, tag, s.timeout, now);
    if S.Lookup(s, key, tag, now).Some? {
      InOneGroup(s, i, key);
    }
  }

  /** What one call can leave behind in a group: old entries, or the payload just put. */
  lemma GroupEntryOrigin(s: S.StorageState, op: S.Op, i: nat, k: Block)
    requires S.Inv(s) && i < |s.groups| && k in S.Step(s, op).groups[i].entries
    ensures var e := S.Step(s, op).groups[i].entries[k].entry;
            || (op.Put? && k == op.key && e == CacheEntry(op.chunk.bytes, op.tag))
            || (k in s.groups[i].entries && e == s.groups[i].entries[k].entry)
  {
    match op
    case Put(key, chunk, tag, now) =>
      var g := s.groups[s.GroupFor(key.fname)];
      PutInv(g, key, chunk, tag, now);
      assert g.bounded && Charge(chunk) > g.capacity ==> g.Put(key, chunk, tag, now) == g;
    case Get(key, tag, now) =>
      GetInv(s.groups[s.GroupFor(key.fname)], key, tag, s.timeout, now);
    case ClearFile(_, doomed) =>
      DropAllInv(s.groups[i], doomed);
    case _ =>
  }

  lemma EntryIsOldOrNew(s: S.StorageState, op: S.Op, k: Block)
    requires S.Inv(s) && S.Inv(S.Step(s, op)) && k in ContentsOf(S.Step(s, op).groups)
    ensures var before, e := ContentsOf(s.groups), ContentsOf(S.Step(s, op).groups)[k];
            (k in before && e == before[k]) || (op.Put? && k == op.key && e == CacheEntry(op.chunk.bytes, op.tag))
  {
    var s' := S.Step(s, op);
    ContentsDomain(s'.groups, k);
    var i :| 0 <= i < |s'.groups| && k in s'.groups[i].entries;
    InOneGroup(s', i, k);
    GroupEntryOrigin(s, op, i, k);
    if k in s.groups[i].entries {
      InOneGroup(s, i, k);
    }
  }

  /** Every call leaves a part of the old contents, plus at most the payload it was given. */
  lemma PolicyStepForgetsOrPuts(s: S.StorageState, op: S.Op)
    requires S.Inv(s)
    ensures op.Put? ==> OldOrNew(ContentsOf(S.Step(s, op).groups), ContentsOf(s.groups), op.key,
                                 CacheEntry(op.chunk.bytes, op.tag))
    ensures !op.Put? ==> Submap(ContentsOf(S.Step(s, op).groups), ContentsOf(s.groups))
  {
    S.StepInv(s, op);
    forall k | k in ContentsOf(S.Step(s, op).groups)
      ensures var before, e := ContentsOf(s.groups), ContentsOf(S.Step(s, op).groups)[k];
              (k in before && e == before[k]) || (op.Put? && k == op.key && e == CacheEntry(op.chunk.bytes, op.tag))
    {
      EntryIsOldOrNew(s, op, k);
    }
  }

  // Draining the policy storage.

  predicate Holds(g: GroupState, p: (Block, CacheEntry)) {
    p.0 in g.entries && g.entries[p.0].entry == p.1
  }

  lemma {:induction false} EntryPairsOnce(entries: map<Block, Charged>, p: (Block, CacheEntry))
    ensures S.EntryPairs(entries)[p] == if p.0 in entries && entries[p.0].entry == p.1 then 1 else 0
    decreases |entries|
  {
    if p.0 in entries {
      S.EntryPairsSplit(entries, p.0);
      EntryPairsOnce(entries - {p.0}, p);
    } else if entries != map[] {
      var k := AnyKey(entries);
      EntryPairsOnce(entries - {k}, p);
    }
  }

  /** A drain hands a pair over once if its file's group holds it, and not at all otherwise. */
  lemma {:induction false} DrainedOnce(s: S.StorageState, i: nat, p: (Block, CacheEntry))
    requires S.Inv(s) && i <= |s.groups|
    ensures var home := S.Scan(s.groups, p.0.fname);
            S.Drained(s.groups, i)[p] == if i <= home && Holds(s.groups[home], p) then 1 else 0
    decreases |s.groups| - i
  {
    if i < |s.groups| {
      EntryPairsOnce(s.groups[i].entries, p);
      DrainedOnce(s, i + 1, p);
    }
  }

  /** What is drained is exactly the contents, each entry once, and nothing stays. */
  lemma PolicyTakeIsContents(s: S.StorageState, taken: seq<(Block, CacheEntry)>, p: (Block, CacheEntry))
    requires S.Inv(s) && multiset(taken) == S.Drained(s.groups, 0)
    ensures p in taken <==> p.0 in ContentsOf(s.groups) && ContentsOf(s.groups)[p.0] == p.1
    ensures multiset(taken)[p] <= 1
  {
    var home := S.Scan(s.groups, p.0.fname);
    DrainedOnce(s, 0, p);
    assert p in taken <==> p in multiset(taken);
    ContentsDomain(s.groups, p.0);
    if p.0 in ContentsOf(s.groups) {
      var i :| 0 <= i < |s.groups| && p.0 in s.groups[i].entries;
      assert i == home;
    }
    if p.0 in s.groups[home].entries {
      InOneGroup(s, home, p.0);
    }
  }

  lemma {:induction false} NothingHeld(groups: seq<GroupState>)
    requires forall i :: 0 <= i < |groups| ==> groups[i].entries == map[]
    ensures ContentsOf(groups) == map[]
  {
    if groups != [] {
      NothingHeld(groups[..|groups| - 1]);
    }
  }

  /** Draining the policy storage and remapping what came out is a drain step of the read path. */
  lemma PolicyDrainIsStep(remote: Remote, sys: System, s: S.StorageState, taken: seq<R.Entry>, block: nat,
                          sizes: map<string, nat>, out: seq<R.Entry>)
    requires S.Inv(s) && sys.store == ContentsOf(s.groups) && multiset(taken) == S.Drained(s.groups, 0)
    requires if block == 0 then out == [] else R.IsRemapOf(taken, block, sizes, out)
    ensures Enabled(remote, sys, Drain(taken, block, sizes, out))
    ensures Apply(remote, sys, Drain(taken, block, sizes, out)).store == ContentsOf(S.Step(s, S.Take).groups)
  {
    forall e | e in taken ensures e.0 in sys.store && sys.store[e.0] == e.1 {
      PolicyTakeIsContents(s, taken, e);
    }
    NothingHeld(S.Step(s, S.Take).groups);
  }

  // The stock storage.

  function StockContents(l: L.LruState): Store {
    map k | k in l.entries :: l.entries[k].entry
  }

  lemma StockHitIsCached(l: L.LruState, key: Block, tag: string, now: int)
    requires l.Inv()
    ensures var (l', hit) := l.Get(key, tag, now);
            && Submap(StockContents(l'), StockContents(l))
            && (hit.Some? ==> key in StockContents(l) && StockContents(l)[key] == hit.value && ValidTag(hit.value.tag, tag))
  {
    L.GetInv(l, key, tag, now);
  }

  lemma StockClearsOnlyForget(l: L.LruState, key: Block, fname: string)
    requires l.Inv()
    ensures Submap(StockContents(l.Delete(key).0), StockContents(l))
    ensures Submap(StockContents(l.Clear()), StockContents(l))
    ensures Submap(StockContents(l.ClearFile(fname)), StockContents(l))
  {
    L.DeleteInv(l, key);
  }

  /** Draining the stock storage and remapping what came out is a drain step of the read path. */
  lemma StockDrainIsStep(remote: Remote, sys: System, l: L.LruState, turns: seq<Block>, clock: nat -> int, block: nat,
                         sizes: map<string, nat>, out: seq<R.Entry>)
    requires l.Inv() && sys.store == StockContents(l) && L.InBlockOrder(turns) && Elems(turns) == l.entries.Keys
    requires var taken := L.FreshAtTurn(l, turns, clock);
             if block == 0 then out == [] else R.IsRemapOf(taken, block, sizes, out)
    ensures var drain := Drain(L.FreshAtTurn(l, turns, clock), block, sizes, out);
            Enabled(remote, sys, drain) && Apply(remote, sys, drain).store == StockContents(l.Clear())
  {
    L.FreshWasCached(l, turns, clock);
  }

  lemma StockPutForgetsOrPuts(l: L.LruState, key: Block, entry: CacheEntry, now: int)
    requires l.Inv()
    ensures OldOrNew(StockContents(l.Put(key, entry, now)), StockContents(l), key, entry)
  {
    L.PutInv(l, key, entry, now);
  }

  lemma ClearsEmpty(s: S.StorageState, l: L.LruState)
    requires S.Inv(s)
    ensures ContentsOf(S.Step(s, S.Clear).groups) == map[] && StockContents(l.Clear()) == map[]
  {
    NothingHeld(S.Step(s, S.Clear).groups);
  }

  // A chunk task's calls into either storage are its steps of the read path.

  /** A lookup in the policy storage: the task goes on with the payload found, or to the remote side. */
  lemma PolicyGetIsStep(remote: Remote, sys: System, s: S.StorageState, id: nat, i: nat, now: int)
    requires S.Inv(s) && sys.store == ContentsOf(s.groups) && HasTask(sys, id, i) && sys.active[id].tasks[i].phase == Pending
    ensures var r := sys.active[id];
            var hit := S.Lookup(s, r.Key(i), r.tag, now);
            var a := Lookup(id, i, hit.Some?, ContentsOf(S.Step(s, S.Get(r.Key(i), r.tag, now)).groups));
            && Enabled(remote, sys, a)
            && Apply(remote, sys, a).active[id].tasks[i].phase == (if hit.Some? then Hit(hit.value.bytes) else Missed)
  {
    var r := sys.active[id];
    PolicyHitIsCached(s, r.Key(i), r.tag, now);
  }

  /** An insertion into the policy storage, whatever it evicts or declines. */
  lemma PolicyPutIsStep(remote: Remote, sys: System, s: S.StorageState, id: nat, i: nat, chunk: Chunk, now: int)
    requires S.Inv(s) && sys.store == ContentsOf(s.groups) && HasTask(sys, id, i)
    requires sys.active[id].tasks[i].phase == Copied(chunk.bytes)
    ensures var r := sys.active[id];
            var a := Insert(id, i, ContentsOf(S.Step(s, S.Put(r.Key(i), chunk, r.tag, now)).groups));
            Enabled(remote, sys, a) && Apply(remote, sys, a).active[id].tasks[i].phase == Done
  {
    var r := sys.active[id];
    PolicyStepForgetsOrPuts(s, S.Put(r.Key(i), chunk, r.tag, now));
  }

  lemma StockGetIsStep(remote: Remote, sys: System, l: L.LruState, id: nat, i: nat, now: int)
    requires l.Inv() && sys.store == StockContents(l) && HasTask(sys, id, i) && sys.active[id].tasks[i].phase == Pending
    ensures var r := sys.active[id];
            var (l', hit) := l.Get(r.Key(i), r.tag, now);
            var a := Lookup(id, i, hit.Some?, StockContents(l'));
            && Enabled(remote, sys, a)
            && Apply(remote, sys, a).active[id].tasks[i].phase == (if hit.Some? then Hit(hit.value.bytes) else Missed)
  {
    var r := sys.active[id];
    StockHitIsCached(l, r.Key(i), r.tag, now);
  }

  lemma StockPutIsStep(remote: Remote, sys: System, l: L.LruState, id: nat, i: nat, content: seq<byte>, now: int)
    requires l.Inv() && sys.store == StockContents(l) && HasTask(sys, id, i)
    requires sys.active[id].tasks[i].phase == Copied(content)
    ensures var r := sys.active[id];
            var a := Insert(id, i, StockContents(l.Put(r.Key(i), CacheEntry(content, r.tag), now)));
            Enabled(remote, sys, a) && Apply(remote, sys, a).active[id].tasks[i].phase == Done
  {
    var r := sys.active[id];
    StockPutForgetsOrPuts(l, r.Key(i), CacheEntry(content, r.tag), now);
  }
}
