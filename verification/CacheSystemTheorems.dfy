/** Further guarantees of the read path: no copy error, no stuck task, plan independence, and where exactness ends. */
module CacheSystemTheorems {
  import opened Blocks
  import opened ChunkedRead
  import opened CacheSystem

  /** No copy ever asks for more bytes than its entry holds. */
  lemma CopyNeverFails(remote: Remote, states: seq<System>, actions: seq<Action>, n: nat, id: nat, i: nat)
    requires Execution(remote, states, actions) && n < |states| && HasTask(states[n], id, i)
    ensures states[n].active[id].tasks[i].phase != Failed
  {
    EveryStateCoherent(remote, states, actions, n);
    var r := states[n].active[id];
    assert ReadOk(remote, r) && TaskOk(remote, r, i);
  }

  /** The next step of a task, with a store that forgets nothing. */
  function NextStep(s: System, id: nat, i: nat): Action
    requires HasTask(s, id, i)
  {
    var r := s.active[id];
    match r.tasks[i].phase
    case Pending => Lookup(id, i, false, s.store)
    case Hit(_) => CopyHit(id, i)
    case Missed => Fetch(id, i)
    case Fetched(_) => CopyFetched(id, i)
    case Copied(content) => Insert(id, i, s.store[r.Key(i) := CacheEntry(content, r.tag)])
    case _ => Forget(s.store)
  }

  /** Every task that is not done can take its next step, in every reachable state. */
  lemma TaskCanProceed(remote: Remote, states: seq<System>, actions: seq<Action>, n: nat, id: nat, i: nat)
    requires Execution(remote, states, actions) && n < |states| && HasTask(states[n], id, i)
    requires states[n].active[id].tasks[i].phase != Done
    ensures Enabled(remote, states[n], NextStep(states[n], id, i)) && !NextStep(states[n], id, i).Forget?
  {
    EveryStateCoherent(remote, states, actions, n);
    var s, r := states[n], states[n].active[id];
    assert ReadOk(remote, r) && TaskOk(remote, r, i);
    assert WellPlaced(Chunks(r.tasks)[i], r.start, |remote(r.path, r.version)|);
  }

  /** The fixed grid, the column chunks, and any other tiling give the caller the same bytes. */
  lemma PlansAgree(remote: Remote, states: seq<System>, actions: seq<Action>, n: nat, a: nat, b: nat)
    requires Execution(remote, states, actions) && n < |states| && a in states[n].active && b in states[n].active
    requires var r, q := states[n].active[a], states[n].active[b];
             r.Complete() && q.Complete() && r.tag != "" && q.tag != "" &&
             r.path == q.path && r.version == q.version && r.start == q.start && |r.buffer| == |q.buffer|
    ensures states[n].active[a].buffer == states[n].active[b].buffer
  {
    ValidatedReadIsExact(remote, states, actions, n, a);
    ValidatedReadIsExact(remote, states, actions, n, b);
  }

  // Without validation, a changed file can be served stale.

  /** What a version holds in a range. */
  ghost function Range(remote: Remote, path: string, version: string, at: nat, n: nat): (r: seq<byte>)
    requires at + n <= |remote(path, version)|
    ensures |r| == n
  {
    remote(path, version)[at..at + n]
  }

  /** A read of one range as a single entry, with validation off. */
  function OneEntry(path: string, version: string, at: nat, buffer: seq<byte>): Read {
    Read(path, version, "", at, buffer, [Task(ReadChunk(0, at, at, |buffer|, |buffer|), Pending)])
  }

  lemma OneEntryStarts(remote: Remote, path: string, version: string, at: nat, buffer: seq<byte>)
    requires buffer != [] && at + |buffer| <= |remote(path, version)|
    ensures Starts(remote, OneEntry(path, version, at, buffer))
  {
    var r := OneEntry(path, version, at, buffer);
    assert Chunks(r.tasks) == [ReadChunk(0, at, at, |buffer|, |buffer|)];
  }

  lemma OneEntryCopy(r: Read, content: seq<byte>, next: Phase)
    requires |r.tasks| == 1 && |content| == |r.buffer| &&
             r.tasks[0].chunk == ReadChunk(0, r.start, r.start, |content|, |content|)
    ensures CopyInto(r, 0, content, next) == r.(buffer := content, tasks := [Task(r.tasks[0].chunk, next)])
  {
    var c := r.tasks[0].chunk;
    WholeSlice(c, content);
    WholeOverwrite(r.buffer, content);
    assert r.tasks[0 := Task(c, next)] == [Task(c, next)];
  }

  lemma WholeSlice(c: ReadChunk, content: seq<byte>)
    requires c.from == c.aligned && c.copy == |content|
    ensures Slice(c, content) == content
  {
  }

  lemma WholeOverwrite(buffer: seq<byte>, content: seq<byte>)
    requires |buffer| == |content|
    ensures Overwrite(buffer, 0, content) == content
  {
  }

  /** A one-entry read by a handle of version `v` at one phase of its only task. */
  function Stage(path: string, v: string, at: nat, content: seq<byte>, phase: Phase, store: Store): System {
    System(store, [], map[0 := OneEntry(path, v, at, content).At(0, phase)])
  }

  function Cached(path: string, at: nat, content: seq<byte>): Store {
    map[Block(path, at, |content|) := CacheEntry(content, "")]
  }

  /** Moving the only task to another phase. */
  lemma StageMoves(path: string, v: string, at: nat, content: seq<byte>, p: Phase, q: Phase, store: Store, store': Store)
    ensures var s := Stage(path, v, at, content, p, store);
            s.(store := store', active := s.active[0 := s.active[0].At(0, q)]) == Stage(path, v, at, content, q, store')
  {
    var r, s := OneEntry(path, v, at, content), Stage(path, v, at, content, p, store);
    assert r.At(0, p).At(0, q).tasks == r.At(0, q).tasks;
    assert s.active[0 := s.active[0].At(0, q)] == map[0 := r.At(0, q)];
  }

  lemma StageBegins(remote: Remote, path: string, v: string, at: nat, content: seq<byte>)
    requires content != [] && at + |content| <= |remote(path, v)|
    ensures var s, a := System(map[], [], map[]), Begin(0, OneEntry(path, v, at, content));
            Enabled(remote, s, a) && Apply(remote, s, a) == Stage(path, v, at, content, Pending, map[])
  {
    OneEntryStarts(remote, path, v, at, content);
    var r := OneEntry(path, v, at, content);
    assert r.At(0, Pending).tasks == r.tasks;
    assert System(map[], [], map[]).active[0 := r] == map[0 := r];
  }

  lemma StageMisses(remote: Remote, path: string, v: string, at: nat, content: seq<byte>)
    ensures var s, a := Stage(path, v, at, content, Pending, map[]), Lookup(0, 0, false, map[]);
            Enabled(remote, s, a) && Apply(remote, s, a) == Stage(path, v, at, content, Missed, map[])
  {
    StageMoves(path, v, at, content, Pending, Missed, map[], map[]);
  }

  lemma StageFetches(remote: Remote, path: string, v: string, at: nat, content: seq<byte>)
    requires at + |content| <= |remote(path, v)| && content == Range(remote, path, v, at, |content|)
    ensures var s, a := Stage(path, v, at, content, Missed, map[]), Fetch(0, 0);
            Enabled(remote, s, a) && Apply(remote, s, a) == Stage(path, v, at, content, Fetched(content), map[])
  {
    var s := Stage(path, v, at, content, Missed, map[]);
    assert RemoteBytes(remote, s.active[0], s.active[0].tasks[0].chunk) == content;
    StageMoves(path, v, at, content, Missed, Fetched(content), map[], map[]);
  }

  lemma StageCopies(remote: Remote, path: string, v: string, at: nat, content: seq<byte>)
    ensures var s, a := Stage(path, v, at, content, Fetched(content), map[]), CopyFetched(0, 0);
            Enabled(remote, s, a) && Apply(remote, s, a) == Stage(path, v, at, content, Copied(content), map[])
  {
    var r := Stage(path, v, at, content, Fetched(content), map[]).active[0];
    OneEntryCopy(r, content, Copied(content));
    assert CopyInto(r, 0, content, Copied(content)) == r.At(0, Copied(content));
    StageMoves(path, v, at, content, Fetched(content), Copied(content), map[], map[]);
  }

  lemma StageInserts(remote: Remote, path: string, v: string, at: nat, content: seq<byte>)
    ensures var s, a := Stage(path, v, at, content, Copied(content), map[]), Insert(0, 0, Cached(path, at, content));
            Enabled(remote, s, a) && Apply(remote, s, a) == Stage(path, v, at, content, Done, Cached(path, at, content))
  {
    StageMoves(path, v, at, content, Copied(content), Done, map[], Cached(path, at, content));
  }

  /** A first unvalidated read caches the range as version `v` has it. */
  lemma WarmUp(remote: Remote, path: string, v: string, at: nat, content: seq<byte>)
    returns (states: seq<System>, actions: seq<Action>)
    requires content != [] && at + |content| <= |remote(path, v)| && content == Range(remote, path, v, at, |content|)
    ensures Execution(remote, states, actions)
    ensures states[|actions|] == Stage(path, v, at, content, Done, Cached(path, at, content))
  {
    StageBegins(remote, path, v, at, content);
    StageMisses(remote, path, v, at, content);
    StageFetches(remote, path, v, at, content);
    StageCopies(remote, path, v, at, content);
    StageInserts(remote, path, v, at, content);
    states, actions := [System(map[], [], map[])], [];
    states, actions := Take(remote, states, actions, Begin(0, OneEntry(path, v, at, content)));
    states, actions := Take(remote, states, actions, Lookup(0, 0, false, map[]));
    states, actions := Take(remote, states, actions, Fetch(0, 0));
    states, actions := Take(remote, states, actions, CopyFetched(0, 0));
    states, actions := Take(remote, states, actions, Insert(0, 0, Cached(path, at, content)));
  }

  /**
    For every range that two versions of a file both have, some run ends with a finished
    unvalidated read through a handle of the second version that returns the first one's bytes.
   */
  lemma UnvalidatedReadCanBeStale(remote: Remote, path: string, v: string, w: string, at: nat, n: nat)
    returns (states: seq<System>, actions: seq<Action>)
    requires n > 0 && at + n <= |remote(path, v)| && at + n <= |remote(path, w)|
    ensures Execution(remote, states, actions) && 1 in states[|actions|].active
    ensures var r := states[|actions|].active[1];
            && r.Complete() && r.path == path && r.version == w && r.start == at && r.End() == at + n
            && r.buffer == Range(remote, path, v, at, n)
  {
    var stale, current := Range(remote, path, v, at, n), Range(remote, path, w, at, n);
    states, actions := WarmUp(remote, path, v, at, stale);
    var r := OneEntry(path, w, at, current);
    OneEntryStarts(remote, path, w, at, current);
    states, actions := Take(remote, states, actions, Begin(1, r));
    var store := states[|actions|].store;
    assert states[|actions|].active[1] == r && r.Key(0) in store;
    states, actions := Take(remote, states, actions, Lookup(1, 0, true, store));
    assert states[|actions|].active[1] == r.At(0, Hit(stale));
    OneEntryCopy(r.At(0, Hit(stale)), stale, Done);
    states, actions := Take(remote, states, actions, CopyHit(1, 0));
  }

  /** The read holds exactly its range of the version its handle reads. */
  ghost predicate Exact(remote: Remote, r: Read) {
    r.End() <= |remote(r.path, r.version)| && r.buffer == Range(remote, r.path, r.version, r.start, |r.buffer|)
  }

  /** Every finished read of the file, validated or not, in every state of every run is exact. */
  ghost predicate AlwaysExact(remote: Remote, path: string) {
    forall states: seq<System>, actions: seq<Action>, i: nat, id: nat ::
      Execution(remote, states, actions) && i < |states| && id in states[i].active &&
      states[i].active[id].path == path && states[i].active[id].Complete() ==>
      Exact(remote, states[i].active[id])
  }

  /** A byte on which two versions disagree can be served stale. */
  lemma DifferingByteIsServedStale(remote: Remote, path: string, v: string, w: string, x: nat)
    requires x < |remote(path, v)| && x < |remote(path, w)| && remote(path, v)[x] != remote(path, w)[x]
    ensures !AlwaysExact(remote, path)
  {
    var states, actions := UnvalidatedReadCanBeStale(remote, path, v, w, x, 1);
    var r := states[|actions|].active[1];
    assert r.buffer[0] == remote(path, v)[x] && Range(remote, path, w, x, 1)[0] == remote(path, w)[x];
    assert !Exact(remote, r);
  }

  /** Reads that need not be validated are exact for exactly the files whose versions agree. */
  lemma UnvalidatedIsExactIffUnchanging(remote: Remote, path: string)
    ensures AlwaysExact(remote, path) <==> Unchanging(remote, path)
  {
    if Unchanging(remote, path) {
      forall states: seq<System>, actions: seq<Action>, i: nat, id: nat
        | Execution(remote, states, actions) && i < |states| && id in states[i].active &&
          states[i].active[id].path == path && states[i].active[id].Complete()
        ensures Exact(remote, states[i].active[id])
      {
        UnvalidatedReadOfUnchangingFileIsExact(remote, states, actions, i, id);
      }
    } else {
      var v, w, x: nat :| x < |remote(path, v)| && x < |remote(path, w)| && remote(path, v)[x] != remote(path, w)[x];
      DifferingByteIsServedStale(remote, path, v, w, x);
    }
  }

  /** Extend an execution by one enabled action. */
  lemma Take(remote: Remote, states: seq<System>, actions: seq<Action>, a: Action)
    returns (states': seq<System>, actions': seq<Action>)
    requires Execution(remote, states, actions) && Enabled(remote, states[|actions|], a)
    ensures Execution(remote, states', actions') && states'[|actions'|] == Apply(remote, states[|actions|], a)
  {
    states', actions' := states + [Apply(remote, states[|actions|], a)], actions + [a];
    forall i | 0 <= i < |actions'|
      ensures Enabled(remote, states'[i], actions'[i]) && states'[i + 1] == Apply(remote, states'[i], actions'[i])
    {
      if i < |actions| {
        assert states'[i] == states[i] && actions'[i] == actions[i] && states'[i + 1] == states[i + 1];
      }
    }
  }
}
