/** The storage object: groups with their policy objects, updated in place. */
module PolicyStorageImpl {
  import opened Blocks
  import opened Sequences
  import opened Policies
  import opened PolicyGroups
  import PolicyStorage

  /** A policy of any kind: the receiver of the virtual calls. */
  datatype AnyPolicy =
    | LruImpl(lru: LruPolicy)
    | FifoImpl(fifo: FifoPolicy)
    | MruImpl(mru: MruPolicy)
    | ClockImpl(clock: ClockPolicy)
  {
    ghost function Obj(): object {
      match this
      case LruImpl(p) => p
      case FifoImpl(p) => p
      case MruImpl(p) => p
      case ClockImpl(p) => p
    }

    ghost predicate Valid() reads Obj() {
      match this
      case LruImpl(p) => p.Valid()
      case FifoImpl(p) => p.Valid()
      case MruImpl(p) => p.Valid()
      case ClockImpl(p) => p.Valid()
    }

    ghost function View(): PolicyState
      reads Obj()
      requires Valid()
    {
      match this
      case LruImpl(p) => p.View()
      case FifoImpl(p) => p.View()
      case MruImpl(p) => p.View()
      case ClockImpl(p) => p.View()
    }

    method OnHit(key: Block)
      requires Valid()
      modifies Obj()
      ensures Valid() && View() == old(View()).OnHit(key)
    {
      match this
      case LruImpl(p) => p.OnHit(key);
      case FifoImpl(p) => p.OnHit(key);
      case MruImpl(p) => p.OnHit(key);
      case ClockImpl(p) => p.OnHit(key);
    }

    method OnInsert(key: Block)
      requires Valid()
      modifies Obj()
      ensures Valid() && View() == old(View()).OnInsert(key)
    {
      match this
      case LruImpl(p) => p.OnInsert(key);
      case FifoImpl(p) => p.OnInsert(key);
      case MruImpl(p) => p.OnInsert(key);
      case ClockImpl(p) => p.OnInsert(key);
    }

    method OnErase(key: Block)
      requires Valid()
      modifies Obj()
      ensures Valid() && View() == old(View()).OnErase(key)
    {
      match this
      case LruImpl(p) => p.OnErase(key);
      case FifoImpl(p) => p.OnErase(key);
      case MruImpl(p) => p.OnErase(key);
      case ClockImpl(p) => p.OnErase(key);
    }

    method PopVictim() returns (victim: Option<Block>)
      requires Valid()
      modifies Obj()
      ensures Valid()
      ensures match old(View()).PopVictim()
              case Nothing => victim == None && View() == old(View())
              case Popped(v, rest) => victim == Some(v) && View() == rest
    {
      match this
      case LruImpl(p) => victim := p.PopVictim();
      case FifoImpl(p) => victim := p.PopVictim();
      case MruImpl(p) => victim := p.PopVictim();
      case ClockImpl(p) => victim := p.PopVictim();
    }

    method Clear()
      requires Valid()
      modifies Obj()
      ensures Valid() && View() == old(View()).Emptied()
    {
      match this
      case LruImpl(p) => p.Clear();
      case FifoImpl(p) => p.Clear();
      case MruImpl(p) => p.Clear();
      case ClockImpl(p) => p.Clear();
    }
  }

  /** `CreateEvictionPolicy`: a fresh, empty policy of the kind of `like`. */
  method NewPolicy(like: PolicyState) returns (p: AnyPolicy)
    ensures p.Valid() && fresh(p.Obj()) && p.View() == like.Emptied()
  {
    match like
    case Lru(_) => var o := new LruPolicy(); p := LruImpl(o);
    case Fifo(_) => var o := new FifoPolicy(); p := FifoImpl(o);
    case Mru(_) => var o := new MruPolicy(); p := MruImpl(o);
    case Clock(_) => var o := new ClockPolicy(); p := ClockImpl(o);
  }

  class Group {
    const pattern: string
    const bounded: bool
    const capacity: nat
    const policy: AnyPolicy
    var used: int
    var entries: map<Block, Charged>

    ghost predicate Valid() reads this, policy.Obj() {
      policy.Obj() != this && policy.Valid()
    }

    ghost function View(): GroupState
      reads this, policy.Obj()
      requires Valid()
    {
      GroupState(pattern, bounded, capacity, policy.View(), used, entries)
    }

    constructor (pattern: string, bounded: bool, capacity: nat, policy: AnyPolicy)
      requires policy.Valid()
      ensures Valid() && this.policy == policy
      ensures View() == GroupState(pattern, bounded, capacity, policy.View(), 0, map[])
    {
      this.pattern, this.bounded, this.capacity, this.policy := pattern, bounded, capacity, policy;
      used, entries := 0, map[];
    }

    method Drop(key: Block)
      requires Valid() && key in entries
      modifies this, policy.Obj()
      ensures Valid() && View() == old(View()).Drop(key)
    {
      used := used - entries[key].bytes;
      entries := entries - {key};
      policy.OnErase(key);
    }

    method EvictToFit(needed: nat)
      requires Valid()
      modifies this, policy.Obj()
      ensures Valid() && View() == old(View()).EvictToFit(needed).0
    {
      if !bounded {
        return;
      }
      ghost var g := View();
      ghost var result := g.EvictToFit(needed).0;
      while used + needed > capacity
        invariant Valid() && View() == g && g.bounded
        invariant g.EvictToFit(needed).0 == result
        decreases |g.policy.Keys()|
      {
        EvictUnfolds(g, needed);
        var more := EvictOne();
        if !more {
          return;
        }
        g := g.AfterPop(g.policy.PopVictim().victim, g.policy.PopVictim().rest);
      }
    }

    method EvictOne() returns (popped: bool)
      requires Valid()
      modifies this, policy.Obj()
      ensures Valid()
      ensures match old(View()).policy.PopVictim()
              case Nothing => !popped && View() == old(View())
              case Popped(victim, rest) => popped && View() == old(View()).AfterPop(victim, rest)
    {
      var victim := policy.PopVictim();
      if victim.None? {
        return false;
      }
      if victim.value in entries {
        used := used - entries[victim.value].bytes;
        entries := entries - {victim.value};
      }
      return true;
    }

    method Put(key: Block, chunk: Chunk, tag: string, now: int)
      requires Valid()
      modifies this, policy.Obj()
      ensures Valid() && View() == old(View()).Put(key, chunk, tag, now)
    {
      var bytes := Charge(chunk);
      if bounded && bytes > capacity {
        return;
      }
      if key in entries {
        Drop(key);
      }
      EvictToFit(bytes);
      used := used + bytes;
      entries := entries[key := Charged(CacheEntry(chunk.bytes, tag), bytes, now)];
      policy.OnInsert(key);
    }

    method Get(key: Block, expected: string, timeout: nat, now: int) returns (hit: Option<CacheEntry>)
      requires Valid()
      modifies this, policy.Obj()
      ensures Valid() && (View(), hit) == old(View()).Get(key, expected, timeout, now)
    {
      if key !in entries {
        return None;
      }
      if Expired(entries[key], timeout, now) || !ValidTag(entries[key].entry.tag, expected) {
        Drop(key);
        return None;
      }
      policy.OnHit(key);
      return Some(entries[key].entry);
    }

    method Delete(key: Block) returns (found: bool)
      requires Valid()
      modifies this, policy.Obj()
      ensures Valid() && (View(), found) == old(View()).Delete(key)
    {
      if key !in entries {
        return false;
      }
      Drop(key);
      return true;
    }

    method Clear()
      requires Valid()
      modifies this, policy.Obj()
      ensures Valid() && View() == old(View()).Clear()
    {
      entries := map[];
      policy.Clear();
      used := 0;
    }

    /** Erase every block of one file, in whatever order the hash map lists them. */
    method ClearFile(fname: string) returns (ghost doomed: seq<Block>)
      requires Valid()
      modifies this, policy.Obj()
      ensures Valid() && View() == old(View()).DropAll(doomed)
      ensures forall k :: k in doomed <==> k in old(entries) && k.fname == fname
      ensures NoDup(doomed)
    {
      var left := set k | k in entries && k.fname == fname;
      doomed := [];
      while left != {}
        invariant Valid() && View() == old(View()).DropAll(doomed)
        invariant forall k :: k in left <==> k in entries && k.fname == fname
        invariant forall k :: k in doomed <==> k in old(entries) && k.fname == fname && k !in left
        invariant forall k :: k in entries ==> k in old(entries)
        invariant NoDup(doomed)
        decreases |left|
      {
        var k :| k in left;
        DropAllAppend(old(View()), doomed, k);
        Drop(k);
        left := left - {k};
        doomed := doomed + [k];
      }
    }
  }

  /** Distinct groups with distinct policies. */
  ghost predicate Apart(groups: seq<Group>) {
    && (forall i, j :: 0 <= i < j < |groups| ==> groups[i] != groups[j])
    && (forall i, j :: 0 <= i < j < |groups| ==> groups[i].policy.Obj() != groups[j].policy.Obj())
    && (forall i, j :: 0 <= i < |groups| && 0 <= j < |groups| ==> groups[i].policy.Obj() != groups[j])
  }

  ghost predicate OwnedBy(groups: seq<Group>, owned: set<object>) {
    forall j :: 0 <= j < |groups| ==> groups[j] in owned && groups[j].policy.Obj() in owned
  }

  lemma ApartAppend(groups: seq<Group>, g: Group, owned: set<object>)
    requires Apart(groups) && OwnedBy(groups, owned)
    requires g !in owned && g.policy.Obj() !in owned && g.policy.Obj() != g
    ensures Apart(groups + [g]) && OwnedBy(groups + [g], owned + {g, g.policy.Obj()})
  {
  }

  ghost predicate IsNew(g: Group, s: GroupState)
    reads g, g.policy.Obj()
  {
    g.Valid() && g.View() == s
  }

  class PolicyDataCacheStorage {
    const groups: seq<Group>
    const timeout: nat
    var groupByFile: map<string, nat>

    /** Every object a call may change. */
    ghost function Footprint(): set<object> {
      (set g | g in groups) + (set g | g in groups :: g.policy.Obj()) + {this}
    }

    /** No group or policy object is shared between groups. */
    ghost predicate Separate() {
      && groups != [] && Apart(groups)
      && (forall i :: 0 <= i < |groups| ==> groups[i].policy.Obj() != this)
    }

    ghost predicate Valid() reads Footprint() {
      && Separate()
      && (forall i :: 0 <= i < |groups| ==> groups[i].Valid())
      && (forall f :: f in groupByFile ==> groupByFile[f] < |groups|)
    }

    ghost function ViewsOfFirst(n: nat): (r: seq<GroupState>)
      reads Footprint()
      requires Valid() && n <= |groups|
      ensures |r| == n && forall i :: 0 <= i < n ==> r[i] == groups[i].View()
    {
      if n == 0 then [] else ViewsOfFirst(n - 1) + [groups[n - 1].View()]
    }

    ghost function GroupViews(): (r: seq<GroupState>)
      reads Footprint()
      requires Valid()
      ensures |r| == |groups| && forall i :: 0 <= i < |groups| ==> r[i] == groups[i].View()
    {
      ViewsOfFirst(|groups|)
    }

    ghost function View(): (s: PolicyStorage.StorageState)
      reads Footprint()
      requires Valid()
      ensures s.Shaped()
    {
      PolicyStorage.StorageState(GroupViews(), groupByFile, timeout)
    }

    constructor (groups: seq<Group>, timeout: nat, ghost initial: seq<GroupState>)
      requires groups != [] && Apart(groups) && |initial| == |groups|
      requires forall i :: 0 <= i < |groups| ==> IsNew(groups[i], initial[i])
      ensures Valid() && View() == PolicyStorage.StorageState(initial, map[], timeout)
    {
      this.groups, this.timeout, groupByFile := groups, timeout, map[];
      new;
      ViewsAre(initial);
    }

    lemma ViewsAre(expected: seq<GroupState>)
      requires Valid() && |expected| == |groups| && forall i :: 0 <= i < |groups| ==> IsNew(groups[i], expected[i])
      ensures GroupViews() == expected
    {
    }

    /** Split the budget and build the groups; over-committed explicit budgets are an error. */
    static method Create(maxBytes: nat, timeout: nat, fallback: PolicyState, spec: seq<PolicyStorage.FilePolicy>)
      returns (r: Option<PolicyDataCacheStorage>)
      ensures r.None? <==> maxBytes > 0 && PolicyStorage.ExplicitBytes(spec) > maxBytes
      ensures r.Some? ==> r.value.Valid() && fresh(r.value) &&
                          r.value.View() == PolicyStorage.Initial(maxBytes, spec, fallback, timeout)
    {
      var explicit, unsized := CountBudgets(spec);
      if maxBytes > 0 && explicit > maxBytes {
        return None;
      }
      var share := if maxBytes == 0 then 0 else (maxBytes - explicit) / unsized;
      var groups := BuildGroups(maxBytes > 0, share, fallback, spec);
      var storage := new PolicyDataCacheStorage(groups, timeout,
                                                PolicyStorage.InitialGroups(maxBytes, spec, fallback));
      return Some(storage);
    }

    static method CountBudgets(spec: seq<PolicyStorage.FilePolicy>) returns (explicit: nat, unsized: nat)
      ensures explicit == PolicyStorage.ExplicitBytes(spec)
      ensures unsized == PolicyStorage.UnsizedCount(spec) + 1
    {
      explicit, unsized := 0, 1;
      for i := 0 to |spec|
        invariant explicit + PolicyStorage.ExplicitBytes(spec[i..]) == PolicyStorage.ExplicitBytes(spec)
        invariant unsized + PolicyStorage.UnsizedCount(spec[i..]) == PolicyStorage.UnsizedCount(spec) + 1
      {
        assert spec[i..][1..] == spec[i + 1..];
        if spec[i].bytes > 0 {
          explicit := explicit + spec[i].bytes;
        } else {
          unsized := unsized + 1;
        }
      }
    }

    /** One group per spec entry, then the catch-all. */
    static method BuildGroups(bounded: bool, share: nat, fallback: PolicyState, spec: seq<PolicyStorage.FilePolicy>)
      returns (groups: seq<Group>)
      ensures |groups| == |spec| + 1 && Apart(groups)
      ensures var initial := PolicyStorage.PatternGroups(spec, bounded, share) +
                             [PolicyStorage.NewGroup("", bounded, share, fallback)];
              forall j :: 0 <= j < |groups| ==> IsNew(groups[j], initial[j])
    {
      groups := [];
      ghost var owned: set<object> := {};
      for i := 0 to |spec|
        invariant |groups| == i && Apart(groups) && fresh(owned) && OwnedBy(groups, owned)
        invariant forall j :: 0 <= j < i ==> IsNew(groups[j], PolicyStorage.PatternGroup(spec[j], bounded, share))
      {
        var g := NewPatternGroup(spec[i], bounded, share);
        ApartAppend(groups, g, owned);
        owned := owned + {g, g.policy.Obj()};
        groups := groups + [g];
      }
      var last := NewGroup("", bounded, share, fallback);
      ApartAppend(groups, last, owned);
      groups := groups + [last];
    }

    static method NewPatternGroup(f: PolicyStorage.FilePolicy, bounded: bool, share: nat) returns (g: Group)
      ensures IsNew(g, PolicyStorage.PatternGroup(f, bounded, share))
      ensures fresh(g) && fresh(g.policy.Obj()) && g.policy.Obj() != g
    {
      g := NewGroup(f.pattern, bounded, if f.bytes > 0 then f.bytes else share, f.policy);
    }

    static method NewGroup(pattern: string, bounded: bool, capacity: nat, like: PolicyState) returns (g: Group)
      ensures IsNew(g, PolicyStorage.NewGroup(pattern, bounded, capacity, like))
      ensures fresh(g) && fresh(g.policy.Obj()) && g.policy.Obj() != g
    {
      var p := NewPolicy(like);
      g := new Group(pattern, bounded, capacity, p);
    }

    /** First pattern match, remembered per path. */
    method GroupFor(fname: string) returns (i: nat)
      requires Valid()
      modifies this
      ensures Valid() && i == old(View()).GroupFor(fname)
      ensures groupByFile == old(groupByFile)[fname := i]
      ensures GroupViews() == old(GroupViews())
    {
      if fname in groupByFile {
        assert groupByFile == groupByFile[fname := groupByFile[fname]];
        return groupByFile[fname];
      }
      i := |groups| - 1;
      ghost var views := GroupViews();
      for j := 0 to |groups|
        invariant i == |groups| - 1
        invariant PolicyStorage.Scan(views, fname) == PolicyStorage.ScanFrom(views, fname, j)
      {
        assert views[j].pattern == groups[j].pattern;
        if groups[j].pattern != "" && PolicyStorage.Contains(fname, groups[j].pattern) {
          i := j;
          break;
        }
      }
      groupByFile := groupByFile[fname := i];
    }

    /** Changing one group and its policy leaves every other group as it was. */
    twostate lemma OnlyGroupChanged(i: nat)
      requires old(Valid()) && i < |groups| && groups[i].Valid()
      requires unchanged(this)
      requires forall j :: 0 <= j < |groups| && j != i ==> unchanged(groups[j]) && unchanged(groups[j].policy.Obj())
      ensures Valid() && GroupViews() == old(GroupViews())[i := groups[i].View()]
    {
    }

    method Put(key: Block, chunk: Chunk, tag: string, now: int)
      requires Valid()
      modifies Footprint()
      ensures Valid() && View() == PolicyStorage.Step(old(View()), PolicyStorage.Put(key, chunk, tag, now))
    {
      var i := GroupFor(key.fname);
      label routed:
      groups[i].Put(key, chunk, tag, now);
      OnlyGroupChanged@routed(i);
    }

    method Get(key: Block, tag: string, now: int) returns (hit: Option<CacheEntry>)
      requires Valid()
      modifies Footprint()
      ensures Valid() && View() == PolicyStorage.Step(old(View()), PolicyStorage.Get(key, tag, now))
      ensures hit == PolicyStorage.Lookup(old(View()), key, tag, now)
    {
      var i := GroupFor(key.fname);
      label routed:
      hit := groups[i].Get(key, tag, timeout, now);
      OnlyGroupChanged@routed(i);
    }

    method Delete(key: Block) returns (found: bool)
      requires Valid()
      modifies Footprint()
      ensures Valid() && View() == PolicyStorage.Step(old(View()), PolicyStorage.Delete(key))
      ensures found == (key in old(View()).groups[old(View()).GroupFor(key.fname)].entries)
    {
      var i := GroupFor(key.fname);
      label routed:
      found := groups[i].Delete(key);
      OnlyGroupChanged@routed(i);
    }

    method ClearGroup(i: nat)
      requires Valid() && i < |groups|
      modifies groups[i], groups[i].policy.Obj()
      ensures Valid() && groupByFile == old(groupByFile)
      ensures GroupViews() == old(GroupViews())[i := old(GroupViews())[i].Clear()]
    {
      groups[i].Clear();
      OnlyGroupChanged(i);
    }

    method Clear()
      requires Valid()
      modifies Footprint()
      ensures Valid() && View() == PolicyStorage.Step(old(View()), PolicyStorage.Clear)
    {
      ghost var before := GroupViews();
      ClearedNext(before, 0);
      for i := 0 to |groups|
        invariant Valid() && groupByFile == old(groupByFile) && GroupViews() == ClearedTo(before, i)
      {
        ClearedNext(before, i);
        ClearGroup(i);
      }
      AllCleared(old(View()));
    }

    /** Erase the blocks of one file from every group; `orders` are the erase orders of the groups. */
    method ClearFile(fname: string) returns (ghost orders: seq<seq<Block>>)
      requires Valid()
      modifies Footprint()
      ensures Valid() && groupByFile == old(groupByFile) && |orders| == |groups|
      ensures forall i :: 0 <= i < |groups| ==>
                FileCleared(old(GroupViews())[i], GroupViews()[i], orders[i], fname)
      ensures PolicyStorage.Inv(old(View())) ==>
                var doomed := orders[PolicyStorage.Scan(old(GroupViews()), fname)];
                View() == PolicyStorage.Step(old(View()), PolicyStorage.ClearFile(fname, doomed))
    {
      ghost var before := GroupViews();
      ghost var views := before;
      orders := [];
      for i := 0 to |groups|
        invariant Valid() && groupByFile == old(groupByFile) && GroupViews() == views
        invariant |orders| == i && |views| == |before|
        invariant forall j :: i <= j < |before| ==> views[j] == before[j]
        invariant forall j :: 0 <= j < i ==> FileCleared(before[j], views[j], orders[j], fname)
      {
        ghost var doomed := ClearGroupFile(i, fname);
        views := views[i := before[i].DropAll(doomed)];
        orders := orders + [doomed];
      }
      if PolicyStorage.Inv(old(View())) {
        ClearFileIsStep(old(View()), views, orders, fname);
      }
    }

    method ClearGroupFile(i: nat, fname: string) returns (ghost doomed: seq<Block>)
      requires Valid() && i < |groups|
      modifies groups[i], groups[i].policy.Obj()
      ensures Valid() && groupByFile == old(groupByFile)
      ensures GroupViews() == old(GroupViews())[i := old(GroupViews())[i].DropAll(doomed)]
      ensures forall k :: k in doomed <==> k in old(GroupViews())[i].entries && k.fname == fname
    {
      doomed := groups[i].ClearFile(fname);
      OnlyGroupChanged(i);
    }

    method TakeGroup(i: nat) returns (pairs: seq<(Block, CacheEntry)>)
      requires Valid() && i < |groups|
      modifies groups[i], groups[i].policy.Obj()
      ensures Valid() && groupByFile == old(groupByFile)
      ensures GroupViews() == old(GroupViews())[i := old(GroupViews())[i].Clear()]
      ensures multiset(pairs) == PolicyStorage.EntryPairs(old(GroupViews())[i].entries)
    {
      pairs := Pairs(groups[i].entries);
      ClearGroup(i);
    }

    /** Drain every group; each pair comes from the group that held it. */
    method Take() returns (taken: seq<(Block, CacheEntry)>)
      requires Valid()
      modifies Footprint()
      ensures Valid() && View() == PolicyStorage.Step(old(View()), PolicyStorage.Take)
      ensures multiset(taken) == PolicyStorage.Drained(old(GroupViews()), 0)
    {
      taken := [];
      ghost var before := GroupViews();
      ClearedNext(before, 0);
      for i := 0 to |groups|
        invariant Valid() && groupByFile == old(groupByFile) && GroupViews() == ClearedTo(before, i)
        invariant multiset(taken) + PolicyStorage.Drained(before, i) == PolicyStorage.Drained(before, 0)
      {
        ClearedNext(before, i);
        var pairs := TakeGroup(i);
        taken := taken + pairs;
      }
      AllCleared(old(View()));
    }
  }

  /** The groups once the first `n` have been cleared. */
  ghost function ClearedTo(before: seq<GroupState>, n: nat): (r: seq<GroupState>)
    requires n <= |before|
    ensures |r| == |before|
  {
    seq(|before|, j requires 0 <= j < |before| => if j < n then before[j].Clear() else before[j])
  }

  lemma ClearedNext(before: seq<GroupState>, n: nat)
    requires n <= |before|
    ensures ClearedTo(before, 0) == before
    ensures n < |before| ==> ClearedTo(before, n + 1) == ClearedTo(before, n)[n := before[n].Clear()] &&
                             ClearedTo(before, n)[n] == before[n]
  {
  }

  lemma AllCleared(s: PolicyStorage.StorageState)
    requires s.Shaped()
    ensures PolicyStorage.Step(s, PolicyStorage.Clear) == PolicyStorage.Step(s, PolicyStorage.Take)
    ensures PolicyStorage.Step(s, PolicyStorage.Take) == s.(groups := ClearedTo(s.groups, |s.groups|))
  {
    var cleared := ClearedTo(s.groups, |s.groups|);
    assert PolicyStorage.Step(s, PolicyStorage.Clear).groups == cleared;
    assert PolicyStorage.Step(s, PolicyStorage.Take).groups == cleared;
  }

  /** The group lost exactly its blocks of `fname`, erased in the given order. */
  ghost predicate FileCleared(before: GroupState, after: GroupState, order: seq<Block>, fname: string) {
    after == before.DropAll(order) && forall k :: k in order <==> k in before.entries && k.fname == fname
  }

  lemma {:induction false} DropAllAbsent(g: GroupState, doomed: seq<Block>)
    requires forall k :: k in doomed ==> k !in g.entries
    ensures g.DropAll(doomed) == g
    decreases |doomed|
  {
    if doomed != [] {
      assert doomed[0] in doomed;
      DropAllAbsent(g, doomed[1..]);
    }
  }

  /** A file's blocks all live in its own group, so erasing them there is clearing the file everywhere. */
  lemma ClearFileIsStep(s: PolicyStorage.StorageState, after: seq<GroupState>, orders: seq<seq<Block>>, fname: string)
    requires PolicyStorage.Inv(s) && |after| == |orders| == |s.groups|
    requires forall i :: 0 <= i < |after| ==> FileCleared(s.groups[i], after[i], orders[i], fname)
    ensures var doomed := orders[PolicyStorage.Scan(s.groups, fname)];
            PolicyStorage.Step(s, PolicyStorage.ClearFile(fname, doomed)) == s.(groups := after)
  {
    var home := PolicyStorage.Scan(s.groups, fname);
    var doomed := orders[home];
    var s' := PolicyStorage.Step(s, PolicyStorage.ClearFile(fname, doomed));
    forall i | 0 <= i < |after| ensures s'.groups[i] == after[i] {
      assert FileCleared(s.groups[i], after[i], orders[i], fname);
      if i != home {
        assert FileCleared(s.groups[home], after[home], orders[home], fname);
        DropAllAbsent(s.groups[i], doomed);
        DropAllAbsent(s.groups[i], orders[i]);
      }
    }
    assert s'.groups == after;
  }

  /** List a hash map's pairs, in some order. */
  method Pairs(entries: map<Block, Charged>) returns (pairs: seq<(Block, CacheEntry)>)
    ensures multiset(pairs) == PolicyStorage.EntryPairs(entries)
  {
    pairs := [];
    var left := entries;
    while left != map[]
      invariant left.Keys <= entries.Keys && forall k :: k in left ==> left[k] == entries[k]
      invariant multiset(pairs) + PolicyStorage.EntryPairs(left) == PolicyStorage.EntryPairs(entries)
      decreases |left|
    {
      var k :| k in left;
      PolicyStorage.EntryPairsSplit(left, k);
      pairs := pairs + [(k, left[k].entry)];
      left := left - {k};
    }
  }

  lemma {:induction false} DropAllAppend(g: GroupState, doomed: seq<Block>, key: Block)
    requires key in g.DropAll(doomed).entries
    ensures g.DropAll(doomed + [key]) == g.DropAll(doomed).Drop(key)
    decreases |doomed|
  {
    if doomed == [] {
      assert [] + [key] == [key];
      assert g.DropAll([key]) == g.Drop(key).DropAll([]);
    } else {
      assert (doomed + [key])[1..] == doomed[1..] + [key];
      DropAllAppend(if doomed[0] in g.entries then g.Drop(doomed[0]) else g, doomed[1..], key);
    }
  }
}
