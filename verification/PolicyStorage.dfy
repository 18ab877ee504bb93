/** The byte-bounded storage as a value: budget split, group lookup, and every operation over every run. */
module PolicyStorage {
  import opened Blocks
  import opened Grid
  import opened Sequences
  import opened Policies
  import opened PolicyGroups

  /** One `pattern=policy[:bytes]` entry; zero bytes means a share of what is left. */
  datatype FilePolicy = FilePolicy(pattern: string, policy: PolicyState, bytes: nat)

  function ExplicitBytes(spec: seq<FilePolicy>): nat {
    if spec == [] then 0 else spec[0].bytes + ExplicitBytes(spec[1..])
  }

  function UnsizedCount(spec: seq<FilePolicy>): nat {
    if spec == [] then 0 else (if spec[0].bytes > 0 then 0 else 1) + UnsizedCount(spec[1..])
  }

  function Share(maxBytes: nat, spec: seq<FilePolicy>): nat
    requires maxBytes > 0 ==> ExplicitBytes(spec) <= maxBytes
  {
    if maxBytes == 0 then 0 else (maxBytes - ExplicitBytes(spec)) / (UnsizedCount(spec) + 1)
  }

  function NewGroup(pattern: string, bounded: bool, capacity: nat, policy: PolicyState): GroupState {
    GroupState(pattern, bounded, capacity, policy.Emptied(), 0, map[])
  }

  function PatternGroup(f: FilePolicy, bounded: bool, share: nat): GroupState {
    NewGroup(f.pattern, bounded, if f.bytes > 0 then f.bytes else share, f.policy)
  }

  function PatternGroups(spec: seq<FilePolicy>, bounded: bool, share: nat): (r: seq<GroupState>)
    ensures |r| == |spec| && forall i :: 0 <= i < |spec| ==> r[i] == PatternGroup(spec[i], bounded, share)
  {
    seq(|spec|, i requires 0 <= i < |spec| => PatternGroup(spec[i], bounded, share))
  }

  /** Explicit budgets come off the top, the rest is shared, and the catch-all is last. */
  function InitialGroups(maxBytes: nat, spec: seq<FilePolicy>, fallback: PolicyState): (r: seq<GroupState>)
    requires maxBytes > 0 ==> ExplicitBytes(spec) <= maxBytes
    ensures |r| == |spec| + 1
  {
    var share := Share(maxBytes, spec);
    PatternGroups(spec, maxBytes > 0, share) + [NewGroup("", maxBytes > 0, share, fallback)]
  }

  function TotalCapacity(groups: seq<GroupState>): nat {
    if groups == [] then 0 else groups[0].capacity + TotalCapacity(groups[1..])
  }

  function TotalUsed(groups: seq<GroupState>): int {
    if groups == [] then 0 else groups[0].used + TotalUsed(groups[1..])
  }

  lemma {:induction false} TotalCapacityConcat(a: seq<GroupState>, b: seq<GroupState>)
    ensures TotalCapacity(a + b) == TotalCapacity(a) + TotalCapacity(b)
  {
    if a == [] {
      assert a + b == b;
    } else {
      assert (a + b)[1..] == a[1..] + b;
      TotalCapacityConcat(a[1..], b);
    }
  }

  lemma {:induction false} PatternCapacity(spec: seq<FilePolicy>, bounded: bool, share: nat)
    ensures TotalCapacity(PatternGroups(spec, bounded, share)) == ExplicitBytes(spec) + UnsizedCount(spec) * share
  {
    if spec != [] {
      PatternCapacity(spec[1..], bounded, share);
      assert PatternGroups(spec, bounded, share)[1..] == PatternGroups(spec[1..], bounded, share);
      MulSuccessor(UnsizedCount(spec[1..]), share);
    }
  }

  /** The group budgets never add up to more than the cache budget. */
  lemma {:induction false} BudgetIsSplit(maxBytes: nat, spec: seq<FilePolicy>, fallback: PolicyState)
    requires maxBytes > 0 && ExplicitBytes(spec) <= maxBytes
    ensures TotalCapacity(InitialGroups(maxBytes, spec, fallback)) <= maxBytes
  {
    var share, n := Share(maxBytes, spec), UnsizedCount(spec);
    PatternCapacity(spec, true, share);
    TotalCapacityConcat(PatternGroups(spec, true, share), [NewGroup("", true, share, fallback)]);
    MulSuccessor(n, share);
    SharesFit(maxBytes - ExplicitBytes(spec), n + 1);
    assert TotalCapacity([NewGroup("", true, share, fallback)]) == share;
  }

  lemma Remainder(left: nat, parts: nat)
    requires parts > 0
    ensures left < parts * (left / parts) + parts
  {
    assert left == parts * (left / parts) + left % parts;
  }

  /** Less is left unassigned than there are groups to share it, and every group gets what the spec says. */
  lemma {:induction false} BudgetIsUsed(maxBytes: nat, spec: seq<FilePolicy>, fallback: PolicyState)
    requires maxBytes > 0 && ExplicitBytes(spec) <= maxBytes
    ensures var groups := InitialGroups(maxBytes, spec, fallback);
            && maxBytes <= TotalCapacity(groups) + UnsizedCount(spec)
            && (forall i :: 0 <= i < |spec| && spec[i].bytes > 0 ==> groups[i].capacity == spec[i].bytes)
            && (forall i :: 0 <= i < |spec| && spec[i].bytes == 0 ==> groups[i].capacity == groups[|spec|].capacity)
            && (forall i :: 0 <= i < |spec| ==> groups[i].pattern == spec[i].pattern) && groups[|spec|].pattern == ""
  {
    var share, n := Share(maxBytes, spec), UnsizedCount(spec);
    var left := maxBytes - ExplicitBytes(spec);
    PatternCapacity(spec, true, share);
    TotalCapacityConcat(PatternGroups(spec, true, share), [NewGroup("", true, share, fallback)]);
    MulSuccessor(n, share);
    Remainder(left, n + 1);
    assert TotalCapacity([NewGroup("", true, share, fallback)]) == share;
  }

  predicate Contains(text: string, pattern: string) {
    exists i {:trigger text[i..]} :: 0 <= i <= |text| && pattern <= text[i..]
  }

  /** Containing a pattern is having it somewhere inside. */
  lemma ContainsIff(text: string, pattern: string)
    ensures Contains(text, pattern) <==> exists a, b :: text == a + pattern + b
  {
    if Contains(text, pattern) {
      var i :| 0 <= i <= |text| && pattern <= text[i..];
      SplitAround(text, pattern, i);
    }
    if exists a, b :: text == a + pattern + b {
      var a, b :| text == a + pattern + b;
      FoundBehind(a, pattern, b);
    }
  }

  lemma SplitAround(text: string, pattern: string, i: nat)
    requires i <= |text| && pattern <= text[i..]
    ensures text == text[..i] + pattern + text[i + |pattern|..]
  {
    assert text[i..][..|pattern|] == pattern;
  }

  lemma FoundBehind(a: string, pattern: string, b: string)
    ensures Contains(a + pattern + b, pattern)
  {
    assert (a + pattern + b)[|a|..] == pattern + b;
  }

  predicate Matches(g: GroupState, fname: string) {
    g.pattern != "" && Contains(fname, g.pattern)
  }

  function ScanFrom(groups: seq<GroupState>, fname: string, from: nat): (i: nat)
    requires from <= |groups| && groups != []
    ensures i < |groups|
    decreases |groups| - from
  {
    if from == |groups| then |groups| - 1
    else if Matches(groups[from], fname) then from
    else ScanFrom(groups, fname, from + 1)
  }

  /** The first group whose pattern occurs in the path, or the last group. */
  function Scan(groups: seq<GroupState>, fname: string): (i: nat)
    requires groups != []
    ensures i < |groups|
  {
    ScanFrom(groups, fname, 0)
  }

  /** Either the first group whose pattern occurs in the path, or the catch-all when none does. */
  lemma {:induction false} ScanIsFirstMatch(groups: seq<GroupState>, fname: string, from: nat)
    requires from <= |groups| && groups != []
    ensures var i := ScanFrom(groups, fname, from);
            && (forall j :: from <= j < i ==> !Matches(groups[j], fname))
            && ((from <= i && Matches(groups[i], fname)) ||
                (i == |groups| - 1 && forall j :: from <= j < |groups| ==> !Matches(groups[j], fname)))
    decreases |groups| - from
  {
    if from < |groups| && !Matches(groups[from], fname) {
      ScanIsFirstMatch(groups, fname, from + 1);
    }
  }

  datatype StorageState = StorageState(groups: seq<GroupState>, memo: map<string, nat>, timeout: nat) {
    predicate Shaped() {
      groups != [] && forall f :: f in memo ==> memo[f] < |groups|
    }

    function GroupFor(fname: string): (i: nat)
      requires Shaped()
      ensures i < |groups|
    {
      if fname in memo then memo[fname] else Scan(groups, fname)
    }

    function With(fname: string, g: GroupState): (r: StorageState)
      requires Shaped()
      ensures r.Shaped() && |r.groups| == |groups|
    {
      var i := GroupFor(fname);
      StorageState(groups[i := g], memo[fname := i], timeout)
    }
  }

  datatype Op =
    | Put(key: Block, chunk: Chunk, tag: string, now: int)
    | Get(key: Block, tag: string, now: int)
    | Delete(key: Block)
    | Clear
    | ClearFile(fname: string, doomed: seq<Block>)
    | Take

  function MapGroups(gs: seq<GroupState>, f: GroupState -> GroupState): (r: seq<GroupState>)
    ensures |r| == |gs| && forall i :: 0 <= i < |gs| ==> r[i] == f(gs[i])
  {
    seq(|gs|, i requires 0 <= i < |gs| => f(gs[i]))
  }

  /** The pairs of one entry map: each cached block exactly once. */
  ghost function EntryPairs(entries: map<Block, Charged>): multiset<(Block, CacheEntry)>
    decreases |entries|
  {
    if entries == map[] then multiset{} else
    var k := AnyKey(entries);
    multiset{(k, entries[k].entry)} + EntryPairs(entries - {k})
  }

  lemma {:induction false} EntryPairsSplit(entries: map<Block, Charged>, key: Block)
    requires key in entries
    ensures EntryPairs(entries) == multiset{(key, entries[key].entry)} + EntryPairs(entries - {key})
    decreases |entries|
  {
    var k := AnyKey(entries);
    if k != key {
      var others, rest := entries - {k}, entries - {key};
      var both := others - {key};
      assert both == rest - {k};
      EntryPairsSplit(others, key);
      EntryPairsSplit(rest, k);
      Regrouped((k, entries[k].entry), (key, entries[key].entry),
                EntryPairs(entries), EntryPairs(others), EntryPairs(rest), EntryPairs(both));
    }
  }

  lemma Regrouped<T>(a: T, b: T, all: multiset<T>, withoutA: multiset<T>, withoutB: multiset<T>, rest: multiset<T>)
    requires all == multiset{a} + withoutA && withoutA == multiset{b} + rest && withoutB == multiset{a} + rest
    ensures all == multiset{b} + withoutB
  {
  }

  /** The pairs a drain of the groups from `i` on hands over. */
  ghost function Drained(groups: seq<GroupState>, i: nat): multiset<(Block, CacheEntry)>
    requires i <= |groups|
    decreases |groups| - i
  {
    if i == |groups| then multiset{} else EntryPairs(groups[i].entries) + Drained(groups, i + 1)
  }

  /**
    One call. `doomed` is the order in which the unordered entry maps happen to
    list the blocks of a cleared file.
   */
  function Step(s: StorageState, op: Op): (r: StorageState)
    requires s.Shaped()
    ensures r.Shaped() && |r.groups| == |s.groups|
  {
    match op
    case Put(key, chunk, tag, now) =>
      s.With(key.fname, s.groups[s.GroupFor(key.fname)].Put(key, chunk, tag, now))
    case Get(key, tag, now) =>
      s.With(key.fname, s.groups[s.GroupFor(key.fname)].Get(key, tag, s.timeout, now).0)
    case Delete(key) =>
      s.With(key.fname, s.groups[s.GroupFor(key.fname)].Delete(key).0)
    case Clear => s.(groups := MapGroups(s.groups, (g: GroupState) => g.Clear()))
    case ClearFile(_, doomed) => s.(groups := MapGroups(s.groups, (g: GroupState) => g.DropAll(doomed)))
    case Take => s.(groups := MapGroups(s.groups, (g: GroupState) => g.Clear()))
  }

  /** What a lookup answers. */
  function Lookup(s: StorageState, key: Block, tag: string, now: int): Option<CacheEntry>
    requires s.Shaped()
  {
    s.groups[s.GroupFor(key.fname)].Get(key, tag, s.timeout, now).1
  }

  ghost predicate Inv(s: StorageState) {
    && s.Shaped()
    && (forall i :: 0 <= i < |s.groups| ==> s.groups[i].Inv())
    && (forall f :: f in s.memo ==> s.memo[f] == Scan(s.groups, f))
    && (forall i, k :: 0 <= i < |s.groups| && k in s.groups[i].entries ==> Scan(s.groups, k.fname) == i)
  }

  ghost predicate SameConfig(a: seq<GroupState>, b: seq<GroupState>) {
    |a| == |b| && forall i :: 0 <= i < |a| ==> a[i].SameConfig(b[i])
  }

  lemma {:induction false} ScanSameConfig(a: seq<GroupState>, b: seq<GroupState>, fname: string, from: nat)
    requires SameConfig(a, b) && from <= |a| && a != []
    ensures ScanFrom(a, fname, from) == ScanFrom(b, fname, from)
    decreases |a| - from
  {
    if from < |a| {
      ScanSameConfig(a, b, fname, from + 1);
    }
  }

  lemma ScansAgree(a: seq<GroupState>, b: seq<GroupState>)
    requires SameConfig(a, b) && a != []
    ensures forall f :: Scan(a, f) == Scan(b, f)
  {
    forall f ensures Scan(a, f) == Scan(b, f) {
      ScanSameConfig(a, b, f, 0);
    }
  }

  /** Replacing the group of a file by one that only holds blocks routed to it. */
  lemma WithInv(s: StorageState, fname: string, g: GroupState)
    requires Inv(s)
    requires var old_g := s.groups[s.GroupFor(fname)];
             g.Inv() && g.SameConfig(old_g) &&
             forall k :: k in g.entries ==> k in old_g.entries || k.fname == fname
    ensures Inv(s.With(fname, g)) && SameConfig(s.With(fname, g).groups, s.groups)
  {
    var i, r := s.GroupFor(fname), s.With(fname, g);
    assert i == Scan(s.groups, fname);
    ScansAgree(r.groups, s.groups);
  }

  lemma AllGroupsInv(s: StorageState, groups: seq<GroupState>)
    requires Inv(s) && SameConfig(groups, s.groups)
    requires forall i :: 0 <= i < |groups| ==> groups[i].Inv() && groups[i].entries.Keys <= s.groups[i].entries.Keys
    ensures Inv(s.(groups := groups))
  {
    ScansAgree(groups, s.groups);
  }

  lemma ClearInv(g: GroupState)
    ensures g.Clear().Inv() && g.Clear().SameConfig(g)
  {
    assert g.policy.Emptied().Keys() == [];
    assert g.Clear().entries.Keys == {};
  }

  lemma StepInv(s: StorageState, op: Op)
    requires Inv(s)
    ensures Inv(Step(s, op)) && SameConfig(Step(s, op).groups, s.groups)
  {
    match op
    case Put(key, chunk, tag, now) =>
      PutInv(s.groups[s.GroupFor(key.fname)], key, chunk, tag, now);
      WithInv(s, key.fname, s.groups[s.GroupFor(key.fname)].Put(key, chunk, tag, now));
    case Get(key, tag, now) =>
      GetInv(s.groups[s.GroupFor(key.fname)], key, tag, s.timeout, now);
      WithInv(s, key.fname, s.groups[s.GroupFor(key.fname)].Get(key, tag, s.timeout, now).0);
    case Delete(key) =>
      var g := s.groups[s.GroupFor(key.fname)];
      if key in g.entries {
        DropInv(g, key);
      }
      WithInv(s, key.fname, g.Delete(key).0);
    case ClearFile(_, doomed) =>
      forall i | 0 <= i < |s.groups|
        ensures var g := s.groups[i].DropAll(doomed);
                g.Inv() && g.SameConfig(s.groups[i]) && g.entries.Keys <= s.groups[i].entries.Keys
      {
        DropAllInv(s.groups[i], doomed);
      }
      AllGroupsInv(s, Step(s, op).groups);
    case _ =>
      forall i | 0 <= i < |s.groups|
        ensures s.groups[i].Clear().Inv() && s.groups[i].Clear().SameConfig(s.groups[i])
      {
        ClearInv(s.groups[i]);
      }
      AllGroupsInv(s, Step(s, op).groups);
  }

  function Run(s: StorageState, ops: seq<Op>): (r: StorageState)
    requires s.Shaped()
    ensures r.Shaped() && |r.groups| == |s.groups|
    decreases |ops|
  {
    if ops == [] then s else Run(Step(s, ops[0]), ops[1..])
  }

  function Initial(maxBytes: nat, spec: seq<FilePolicy>, fallback: PolicyState, timeout: nat): (s: StorageState)
    requires maxBytes > 0 ==> ExplicitBytes(spec) <= maxBytes
    ensures s.Shaped()
  {
    StorageState(InitialGroups(maxBytes, spec, fallback), map[], timeout)
  }

  lemma NewGroupInv(pattern: string, bounded: bool, capacity: nat, policy: PolicyState)
    ensures NewGroup(pattern, bounded, capacity, policy).Inv()
  {
    var g := NewGroup(pattern, bounded, capacity, policy);
    assert g.policy.Keys() == [];
    assert g.entries.Keys == {};
  }

  lemma InitialInv(maxBytes: nat, spec: seq<FilePolicy>, fallback: PolicyState, timeout: nat)
    requires maxBytes > 0 ==> ExplicitBytes(spec) <= maxBytes
    ensures Inv(Initial(maxBytes, spec, fallback, timeout))
    ensures forall i :: 0 <= i < |spec| + 1 ==> InitialGroups(maxBytes, spec, fallback)[i].bounded == (maxBytes > 0)
  {
    var groups := InitialGroups(maxBytes, spec, fallback);
    forall i | 0 <= i < |groups|
      ensures groups[i].Inv() && groups[i].entries == map[] && groups[i].bounded == (maxBytes > 0)
    {
      var g := groups[i];
      NewGroupInv(g.pattern, g.bounded, g.capacity, if i < |spec| then spec[i].policy else fallback);
    }
  }

  lemma {:induction false} RunInv(s: StorageState, ops: seq<Op>)
    requires Inv(s)
    ensures Inv(Run(s, ops)) && SameConfig(Run(s, ops).groups, s.groups)
    decreases |ops|
  {
    if ops != [] {
      StepInv(s, ops[0]);
      RunInv(Step(s, ops[0]), ops[1..]);
    }
  }

  lemma {:induction false} UsedWithinCapacity(a: seq<GroupState>, b: seq<GroupState>)
    requires SameConfig(a, b)
    requires forall i :: 0 <= i < |a| ==> a[i].Inv() && a[i].bounded
    ensures TotalUsed(a) <= TotalCapacity(b)
  {
    if a != [] {
      UsedWithinCapacity(a[1..], b[1..]);
      assert a[0].SameConfig(b[0]);
    }
  }

  /**
    Every run of every configuration: policies and entry maps agree, the byte
    counts are exact, each block lives in its file's first-match group, and the
    whole cache stays within its budget.
   */
  lemma EveryRunKeepsBudgets(maxBytes: nat, spec: seq<FilePolicy>, fallback: PolicyState, timeout: nat, ops: seq<Op>)
    requires maxBytes > 0 ==> ExplicitBytes(spec) <= maxBytes
    ensures var s := Run(Initial(maxBytes, spec, fallback, timeout), ops);
            Inv(s) && (maxBytes > 0 ==> TotalUsed(s.groups) <= maxBytes)
  {
    var init := Initial(maxBytes, spec, fallback, timeout);
    InitialInv(maxBytes, spec, fallback, timeout);
    RunInv(init, ops);
    if maxBytes > 0 {
      var s := Run(init, ops);
      forall i | 0 <= i < |s.groups| ensures s.groups[i].bounded {
        assert s.groups[i].SameConfig(init.groups[i]);
      }
      UsedWithinCapacity(s.groups, init.groups);
      BudgetIsSplit(maxBytes, spec, fallback);
    }
  }

  /** Put, Get and Delete on a file touch only the group of that file. */
  lemma OtherGroupsUntouched(s: StorageState, op: Op, j: nat)
    requires Inv(s) && (op.Put? || op.Get? || op.Delete?)
    requires j < |s.groups| && j != Scan(s.groups, op.key.fname)
    ensures Step(s, op).groups[j] == s.groups[j]
  {
    assert s.GroupFor(op.key.fname) == Scan(s.groups, op.key.fname);
  }

  /** Clearing a file, in whatever order its blocks are listed, removes its blocks and no others. */
  lemma ClearFileDropsThatFile(s: StorageState, fname: string, doomed: seq<Block>, i: nat)
    requires Inv(s) && i < |s.groups|
    requires forall k :: k in s.groups[i].entries ==> (k in doomed <==> k.fname == fname)
    ensures var after := Step(s, ClearFile(fname, doomed)).groups[i].entries;
            && (forall k :: k in after <==> k in s.groups[i].entries && k.fname != fname)
            && (forall k :: k in after ==> after[k] == s.groups[i].entries[k])
  {
    DropAllInv(s.groups[i], doomed);
  }
}
