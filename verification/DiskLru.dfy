/** The disk cache's access-time maps: timestamp to path and path to timestamp, kept mutually inverse. */
module DiskLru {
  import opened Sequences

  type Path = string
  datatype Time = Time(value: int)

  /** Each map undoes the other. */
  ghost predicate Inverse(byTime: map<Time, Path>, byPath: map<Path, Time>) {
    && (forall t :: t in byTime ==> byTime[t] in byPath && byPath[byTime[t]] == t)
    && (forall p :: p in byPath ==> byPath[p] in byTime && byTime[byPath[p]] == p)
  }

  lemma {:induction false} InverseSameSize(byTime: map<Time, Path>, byPath: map<Path, Time>)
    requires Inverse(byTime, byPath)
    ensures |byTime| == |byPath|
    decreases |byTime|
  {
    if byTime == map[] {
      assert forall p :: p !in byPath;
      assert byPath == map[];
    } else {
      var t :| t in byTime;
      var p := byTime[t];
      var a, b := byTime - {t}, byPath - {p};
      InverseSameSize(a, b);
      assert a.Keys == byTime.Keys - {t} && b.Keys == byPath.Keys - {p};
      assert |byTime| == |byTime.Keys| && |byPath| == |byPath.Keys|;
      assert |a| == |a.Keys| && |b| == |b.Keys|;
    }
  }

  /** The first free timestamp at or after a clock reading. */
  ghost predicate FirstFree(byTime: map<Time, Path>, clock: int, t: Time) {
    t.value >= clock && t !in byTime && forall v :: clock <= v < t.value ==> Time(v) in byTime
  }

  lemma StampInverse(byTime: map<Time, Path>, byPath: map<Path, Time>, p: Path, t: Time)
    requires Inverse(byTime, byPath) && p !in byPath && t !in byTime
    ensures Inverse(byTime[t := p], byPath[p := t])
  {
  }

  /** The keys of one map are the values of the other. */
  lemma FreeInBoth(byTime: map<Time, Path>, byPath: map<Path, Time>, clock: int, t: Time)
    requires Inverse(byTime, byPath) && FirstFree(byTime, clock, t)
    ensures StampFor(byPath, clock, t.value)
  {
    forall u ensures u in byPath.Values <==> u in byTime {
      if u in byTime {
        assert byPath[byTime[u]] == u;
      }
    }
  }

  /** The least timestamp of one map is the least timestamp of the other. */
  lemma LeastInBoth(byTime: map<Time, Path>, byPath: map<Path, Time>, t: Time)
    requires Inverse(byTime, byPath) && t in byTime && forall u :: u in byTime ==> t.value <= u.value
    ensures byTime[t] in byPath && forall q :: q in byPath ==> byPath[byTime[t]].value <= byPath[q].value
  {
  }

  class AccessTimes {
    var byTime: map<Time, Path>
    var byPath: map<Path, Time>

    ghost predicate Valid() reads this {
      Inverse(byTime, byPath)
    }

    constructor ()
      ensures Valid() && byPath == map[]
    {
      byTime, byPath := map[], map[];
    }

    method Remove(p: Path)
      requires Valid()
      modifies this
      ensures Valid() && Next(old(byPath), Forget(p), byPath)
      ensures p in old(byPath) ==> byTime == old(byTime) - {old(byPath)[p]}
      ensures p !in old(byPath) ==> byTime == old(byTime)
    {
      if p !in byPath {
        assert byPath - {p} == byPath;
        return;
      }
      // The erased count is one: the timestamp is present.
      assert byPath[p] in byTime;
      byTime := byTime - {byPath[p]};
      byPath := byPath - {p};
    }

    /** Give `p` the first free timestamp at or after the clock reading. */
    method Upsert(p: Path, clock: int)
      requires Valid()
      modifies this
      ensures Valid() && Next(old(byPath), Access(p, clock), byPath)
    {
      Remove(p);
      var t := FreeTime(byTime, clock);
      StampInverse(byTime, byPath, p, t);
      FreeInBoth(byTime, byPath, clock, t);
      byTime := byTime[t := p];
      byPath := byPath[p := t];
      InverseSameSize(byTime, byPath);
    }

    /** Bump a clock reading past the timestamps already in use. */
    static method FreeTime(byTime: map<Time, Path>, clock: int) returns (t: Time)
      ensures FirstFree(byTime, clock, t)
    {
      t := Time(clock);
      while t in byTime
        invariant t.value >= clock && forall v :: clock <= v < t.value ==> Time(v) in byTime
        decreases set u | u in byTime && u.value >= t.value
      {
        ghost var ahead := set u | u in byTime && u.value >= t.value;
        assert t in ahead;
        t := Time(t.value + 1);
      }
    }

    /** Take over the files found on disk; the listing names each path once. */
    method Load(listing: map<Time, Path>)
      requires byTime == map[] && byPath == map[]
      requires forall t, u :: t in listing && u in listing && listing[t] == listing[u] ==> t == u
      modifies this
      ensures Valid() && byTime == listing
      ensures exists order :: Next(map[], Reload(order), byPath)
    {
      byTime := listing;
      var left := listing.Keys;
      while left != {}
        invariant left <= listing.Keys && byTime == listing
        invariant forall t :: t in listing && t !in left ==> listing[t] in byPath && byPath[listing[t]] == t
        invariant forall p :: p in byPath ==> byPath[p] in listing && byPath[p] !in left && listing[byPath[p]] == p
        decreases |left|
      {
        var t :| t in left;
        assert listing[t] !in byPath;
        byPath := byPath[listing[t] := t];
        left := left - {t};
      }
      ghost var order := SomeOrder(byTime, byPath);
      assert Next(map[], Reload(order), byPath);
    }

    /** The path with the smallest timestamp, reloading the maps from disk when they are empty. */
    method Evict(listing: map<Time, Path>) returns (victim: Option<Path>)
      requires Valid()
      requires forall t, u :: t in listing && u in listing && listing[t] == listing[u] ==> t == u
      modifies this
      ensures Valid()
      ensures var before := if old(byTime) == map[] then listing else old(byTime);
              if before == map[] then victim == None && byTime == map[]
              else exists t :: t in before && (forall u :: u in before ==> t.value <= u.value) &&
                     victim == Some(before[t]) && byTime == before - {t}
      ensures old(byTime) != map[] ==> victim.Some? && Next(old(byPath), Op.Evict(victim.value), byPath)
      ensures old(byTime) == map[] && victim.Some? ==> ReloadedFirst(old(byPath), victim.value, byPath)
      ensures victim.None? ==> byPath == old(byPath) == map[]
    {
      if byTime == map[] {
        assert byPath == map[] by {
          InverseSameSize(byTime, byPath);
        }
        Load(listing);
      }
      if byTime == map[] {
        assert byPath == map[] by {
          InverseSameSize(byTime, byPath);
        }
        return None;
      }
      ghost var before, loaded := byTime, byPath;
      var t := LeastTime(byTime.Keys);
      var p := byTime[t];
      LeastInBoth(byTime, byPath, t);
      Remove(p);
      assert byTime == before - {t};
      assert Next(loaded, Op.Evict(p), byPath);
      return Some(p);
    }

    method Clear()
      modifies this
      ensures Valid() && Next(old(byPath), Op.Clear, byPath)
    {
      byTime, byPath := map[], map[];
    }
  }

  /** A reload of the maps followed by an eviction. */
  ghost predicate ReloadedFirst(s: map<Path, Time>, victim: Path, s': map<Path, Time>) {
    exists order, loaded :: Next(s, Reload(order), loaded) && Next(loaded, Op.Evict(victim), s')
  }

  method LeastTime(times: set<Time>) returns (t: Time)
    requires times != {}
    ensures t in times && forall u :: u in times ==> t.value <= u.value
  {
    t :| t in times;
    var left := times - {t};
    while left != {}
      invariant left <= times && t in times && forall u :: u in times && u !in left ==> t.value <= u.value
      decreases |left|
    {
      var u :| u in left;
      left := left - {u};
      if u.value < t.value {
        t := u;
      }
    }
  }

  // Does the smallest timestamp belong to the least recently accessed path?

  /** `recency` lists the recorded paths from least to most recently accessed, and timestamps agree. */
  ghost predicate Ordered(byPath: map<Path, Time>, recency: seq<Path>) {
    NoDup(recency) && Elems(recency) == byPath.Keys && Increasing(byPath, recency)
  }

  ghost predicate Increasing(byPath: map<Path, Time>, recency: seq<Path>)
    requires Elems(recency) <= byPath.Keys
  {
    forall i, j :: 0 <= i < j < |recency| ==> byPath[recency[i]].value < byPath[recency[j]].value
  }

  /** `t` is the first value at or after `clock` that no other path holds. */
  ghost predicate StampFor(others: map<Path, Time>, clock: int, t: int) {
    t >= clock && Time(t) !in others.Values && forall v :: clock <= v < t ==> Time(v) in others.Values
  }

  /** No value between the clock reading and any recorded timestamp is free. */
  ghost predicate GapFree(others: map<Path, Time>, clock: int) {
    forall q, v :: q in others && clock <= v <= others[q].value ==> Time(v) in others.Values
  }

  /** A clock reading later than everything recorded is the ordinary case. */
  lemma LateClockIsGapFree(others: map<Path, Time>, clock: int)
    requires forall q :: q in others ==> others[q].value < clock
    ensures GapFree(others, clock)
  {
  }

  /** The new stamp is the latest of all exactly when there is no gap for it to fall into. */
  lemma NewestIffGapFree(others: map<Path, Time>, clock: int, t: int)
    requires StampFor(others, clock, t)
    ensures (forall q :: q in others ==> others[q].value < t) <==> GapFree(others, clock)
  {
    if exists q :: q in others && others[q].value >= t {
      var q :| q in others && others[q].value >= t;
      assert !(clock <= t <= others[q].value ==> Time(t) in others.Values);
    }
  }

  lemma ErasedStaysIncreasing(byPath: map<Path, Time>, recency: seq<Path>, k: nat)
    requires Elems(recency) <= byPath.Keys && Increasing(byPath, recency) && k < |recency|
    ensures Elems(recency[..k] + recency[k + 1..]) <= byPath.Keys
    ensures Increasing(byPath, recency[..k] + recency[k + 1..])
  {
    var r := recency[..k] + recency[k + 1..];
    assert Elems(r) <= Elems(recency);
    forall i, j | 0 <= i < j < |r| ensures byPath[r[i]].value < byPath[r[j]].value {
      var i', j' := if i < k then i else i + 1, if j < k then j else j + 1;
      assert r[i] == recency[i'] && r[j] == recency[j'];
    }
  }

  lemma WithoutKeepsOrder(byPath: map<Path, Time>, recency: seq<Path>, p: Path)
    requires Ordered(byPath, recency)
    ensures Ordered(byPath - {p}, Without(recency, p))
  {
    var r := Without(recency, p);
    assert NoDup(recency);
    WithoutElems(recency, p);
    if p in recency {
      var k :| 0 <= k < |recency| && recency[k] == p;
      WithoutAt(recency, k);
      ErasedStaysIncreasing(byPath, recency, k);
    }
    assert Increasing(byPath, r);
    SameStamps(byPath, byPath - {p}, r);
  }

  lemma SameStamps(a: map<Path, Time>, b: map<Path, Time>, r: seq<Path>)
    requires Elems(r) <= a.Keys && Elems(r) <= b.Keys && forall p :: p in r ==> a[p] == b[p]
    requires Increasing(a, r)
    ensures Increasing(b, r)
  {
  }

  lemma AppendKeepsOrder(others: map<Path, Time>, recency: seq<Path>, p: Path, t: int)
    requires Ordered(others, recency) && p !in others && forall q :: q in others ==> others[q].value < t
    ensures Ordered(others[p := Time(t)], recency + [p])
  {
    assert Elems(recency + [p]) == Elems(recency) + {p};
    assert p !in recency;
    forall i | 0 <= i < |recency| ensures others[recency[i]].value < t {
      assert recency[i] in Elems(recency);
    }
  }

  lemma LatestPath(byPath: map<Path, Time>) returns (p: Path)
    requires byPath != map[]
    ensures p in byPath && forall q :: q in byPath ==> byPath[q].value <= byPath[p].value
  {
    p :| p in byPath;
    var left := byPath.Keys - {p};
    while left != {}
      invariant left <= byPath.Keys && p in byPath
      invariant forall q :: q in byPath && q !in left ==> byPath[q].value <= byPath[p].value
      decreases |left|
    {
      var q :| q in left;
      left := left - {q};
      if byPath[p].value < byPath[q].value {
        p := q;
      }
    }
  }

  /** The files of a listing can be put in the order of their timestamps. */
  lemma {:induction false} SomeOrder(byTime: map<Time, Path>, byPath: map<Path, Time>) returns (order: seq<Path>)
    requires Inverse(byTime, byPath)
    ensures Ordered(byPath, order)
    decreases |byPath|
  {
    if byPath == map[] {
      order := [];
    } else {
      var p := LatestPath(byPath);
      var t := byPath[p];
      var rest := SomeOrder(byTime - {t}, byPath - {p});
      forall q | q in byPath - {p} ensures byPath[q].value < t.value {
        assert byTime[byPath[q]] == q && byTime[t] == p;
        assert byPath[q] != t;
      }
      AppendKeepsOrder(byPath - {p}, rest, p, t.value);
      order := rest + [p];
      assert (byPath - {p})[p := Time(t.value)] == byPath;
    }
  }

  datatype Op =
    | Access(path: Path, clock: int)
    | Evict(path: Path)
    | Forget(path: Path)
    | Reload(order: seq<Path>)
    | Clear

  /** One call's effect on the recorded timestamps. */
  ghost predicate Next(s: map<Path, Time>, op: Op, s': map<Path, Time>) {
    match op
    case Access(p, clock) => p in s' && s' == (s - {p})[p := s'[p]] && StampFor(s - {p}, clock, s'[p].value)
    case Evict(p) => p in s && (forall q :: q in s ==> s[p].value <= s[q].value) && s' == s - {p}
    case Forget(p) => s' == s - {p}
    case Reload(order) => s == map[] && Ordered(s', order)
    case Clear => s' == map[]
  }

  /** What an exact least-recently-used list would do. */
  function Recency(r: seq<Path>, op: Op): seq<Path> {
    match op
    case Access(p, _) => Without(r, p) + [p]
    case Evict(p) => Without(r, p)
    case Forget(p) => Without(r, p)
    case Reload(order) => order
    case Clear => []
  }

  function RecencyAfter(ops: seq<Op>): seq<Path> {
    if ops == [] then [] else Recency(RecencyAfter(ops[..|ops| - 1]), ops[|ops| - 1])
  }

  lemma NextKeepsOrder(s: map<Path, Time>, op: Op, s': map<Path, Time>, recency: seq<Path>)
    requires Ordered(s, recency) && Next(s, op, s')
    requires op.Access? ==> GapFree(s - {op.path}, op.clock)
    ensures Ordered(s', Recency(recency, op))
    ensures op.Evict? ==> recency != [] && recency[0] == op.path
  {
    match op
    case Access(p, clock) =>
      WithoutKeepsOrder(s, recency, p);
      NewestIffGapFree(s - {p}, clock, s'[p].value);
      AppendKeepsOrder(s - {p}, Without(recency, p), p, s'[p].value);
    case Evict(p) =>
      WithoutKeepsOrder(s, recency, p);
      assert p in Elems(recency);
      var k :| 0 <= k < |recency| && recency[k] == p;
      assert recency[0] in Elems(recency);
    case Forget(p) => WithoutKeepsOrder(s, recency, p);
    case Reload(_) =>
    case Clear => assert Elems(Recency(recency, op)) == {};
  }

  /** The k-th call, made with a clock reading that leaves no gap. */
  ghost predicate GapFreeStep(states: seq<map<Path, Time>>, ops: seq<Op>, k: nat)
    requires |states| == |ops| + 1 && k < |ops|
  {
    Next(states[k], ops[k], states[k + 1]) &&
    (ops[k].Access? ==> GapFree(states[k] - {ops[k].path}, ops[k].clock))
  }

  /** Over every run whose clock leaves no gaps, each eviction takes the least recently accessed path. */
  lemma {:induction false} EvictsLeastRecent(states: seq<map<Path, Time>>, ops: seq<Op>, i: nat)
    requires |states| == |ops| + 1 && states[0] == map[] && i < |states|
    requires forall k :: 0 <= k < |ops| ==> GapFreeStep(states, ops, k)
    ensures Ordered(states[i], RecencyAfter(ops[..i]))
    ensures i < |ops| && ops[i].Evict? ==>
              RecencyAfter(ops[..i]) != [] && RecencyAfter(ops[..i])[0] == ops[i].path
  {
    if i > 0 {
      EvictsLeastRecent(states, ops, i - 1);
      assert GapFreeStep(states, ops, i - 1);
      NextKeepsOrder(states[i - 1], ops[i - 1], states[i], RecencyAfter(ops[..i - 1]));
      assert ops[..i][..i - 1] == ops[..i - 1];
    }
    if i < |ops| {
      assert GapFreeStep(states, ops, i);
      NextKeepsOrder(states[i], ops[i], states[i + 1], RecencyAfter(ops[..i]));
    }
  }

  /**
    With a clock that stands still, a re-access reuses the stamp it just freed: the path
    accessed last now has the smallest timestamp of the two and is evicted first.
   */
  lemma StandingClockEvictsMostRecent()
    ensures var s1: map<Path, Time> := map["a" := Time(5)];
            var s2: map<Path, Time> := map["a" := Time(5), "b" := Time(6)];
            && Next(map[], Access("a", 5), s1)
            && Next(s1, Access("b", 5), s2)
            && Next(s2, Access("a", 5), s2)
            && Next(s2, Evict("a"), s2 - {"a"})
            && Recency(Recency(Recency([], Access("a", 5)), Access("b", 5)), Access("a", 5)) == ["b", "a"]
  {
    var s0: map<Path, Time> := map[];
    var s1: map<Path, Time> := map["a" := Time(5)];
    var s2: map<Path, Time> := map["a" := Time(5), "b" := Time(6)];
    assert s0 - {"a"} == s0 && s1 == s0["a" := Time(5)];
    assert s1 - {"b"} == s1 && s2 == s1["b" := Time(6)] && s1["a"] in s1.Values;
    assert s2 - {"a"} == map["b" := Time(6)] && s2 == (s2 - {"a"})["a" := Time(5)];
    assert [] + ["a"] == ["a"] && ["a"] + ["b"] == ["a", "b"];
    WithoutAt(["a", "b"], 0);
  }
}
