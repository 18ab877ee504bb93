/**
  The whole read path as a step system: chunk tasks of any number of reads interleave with
  each other, with evictions and clears, and with block-size remaps.
 */
module CacheSystem {
  import opened Blocks
  import opened ChunkedRead
  import opened Sequences
  import R = RemapEntries

  /** The remote side: the content of each version of each file. */
  type Remote = (string, string) -> seq<byte>

  datatype Phase =
    | Pending
    | Hit(content: seq<byte>)
    | Missed
    | Fetched(content: seq<byte>)
    | Copied(content: seq<byte>)
    | Done
    | Failed

  datatype Task = Task(chunk: ReadChunk, phase: Phase)

  /** `version` is what the open handle reads; `tag` is what it expects of cached entries, empty for anything. */
  datatype Read = Read(
    path: string, version: string, tag: string, start: nat, buffer: seq<byte>, tasks: seq<Task>)
  {
    function End(): nat {
      start + |buffer|
    }

    function Key(i: nat): Block
      requires i < |tasks|
    {
      Block(path, tasks[i].chunk.aligned, tasks[i].chunk.size)
    }

    function At(i: nat, phase: Phase): Read
      requires i < |tasks|
    {
      this.(tasks := tasks[i := Task(tasks[i].chunk, phase)])
    }

    predicate Complete() {
      forall i :: 0 <= i < |tasks| ==> tasks[i].phase == Done
    }
  }

  type Store = map<Block, CacheEntry>

  /** `pending` holds remapped entries on their way back into the store. */
  datatype System = System(store: Store, pending: seq<R.Entry>, active: map<nat, Read>)

  datatype Action =
    | Begin(id: nat, read: Read)
    | Lookup(id: nat, i: nat, hit: bool, store: Store)
    | CopyHit(id: nat, i: nat)
    | Fetch(id: nat, i: nat)
    | CopyFetched(id: nat, i: nat)
    | Insert(id: nat, i: nat, store: Store)
    | Forget(store: Store)
    | Drain(taken: seq<R.Entry>, block: nat, sizes: map<string, nat>, out: seq<R.Entry>)
    | Restore(n: nat, store: Store)

  predicate Submap(a: Store, b: Store) {
    forall k :: k in a ==> k in b && a[k] == b[k]
  }

  /** Every entry is an old one, or the new payload under its key. */
  predicate OldOrNew(a: Store, b: Store, key: Block, e: CacheEntry) {
    forall k :: k in a ==> (k in b && a[k] == b[k]) || (k == key && a[k] == e)
  }

  /** A request inside the file, cut into chunks that tile it. */
  ghost predicate Starts(remote: Remote, r: Read) {
    && (r.tag == "" || r.tag == r.version)
    && r.End() <= |remote(r.path, r.version)|
    && Tiles(Chunks(r.tasks), r.start, r.End(), |remote(r.path, r.version)|)
    && forall i :: 0 <= i < |r.tasks| ==> r.tasks[i].phase == Pending
  }

  function Chunks(tasks: seq<Task>): (r: seq<ReadChunk>)
    ensures |r| == |tasks| && forall i :: 0 <= i < |tasks| ==> r[i] == tasks[i].chunk
  {
    seq(|tasks|, i requires 0 <= i < |tasks| => tasks[i].chunk)
  }

  predicate HasTask(s: System, id: nat, i: nat) {
    id in s.active && i < |s.active[id].tasks|
  }

  ghost predicate Enabled(remote: Remote, s: System, a: Action) {
    match a
    case Begin(id, read) => id !in s.active && Starts(remote, read)
    // The storage may drop entries on the way; a hit returns a cached entry with an acceptable tag.
    case Lookup(id, i, hit, store) =>
      && HasTask(s, id, i) && s.active[id].tasks[i].phase == Pending && Submap(store, s.store)
      && (hit ==> s.active[id].Key(i) in s.store && ValidTag(s.store[s.active[id].Key(i)].tag, s.active[id].tag))
    case CopyHit(id, i) => HasTask(s, id, i) && s.active[id].tasks[i].phase.Hit?
    case Fetch(id, i) =>
      && HasTask(s, id, i) && s.active[id].tasks[i].phase == Missed
      && s.active[id].tasks[i].chunk.aligned + s.active[id].tasks[i].chunk.size <= |remote(s.active[id].path, s.active[id].version)|
    case CopyFetched(id, i) => HasTask(s, id, i) && s.active[id].tasks[i].phase.Fetched?
    // The storage may decline the entry or evict others for it.
    case Insert(id, i, store) =>
      && HasTask(s, id, i) && s.active[id].tasks[i].phase.Copied?
      && OldOrNew(store, s.store, s.active[id].Key(i), CacheEntry(s.active[id].tasks[i].phase.content, s.active[id].tag))
    case Forget(store) => Submap(store, s.store)
    case Drain(taken, block, sizes, out) =>
      && (forall e :: e in taken ==> e.0 in s.store && s.store[e.0] == e.1)
      && (if block == 0 then out == [] else R.IsRemapOf(taken, block, sizes, out))
    case Restore(n, store) => n < |s.pending| && OldOrNew(store, s.store, s.pending[n].0, s.pending[n].1)
  }

  /** Copy a chunk's slice into the buffer; asking for more than the content holds is an error. */
  function CopyInto(r: Read, i: nat, content: seq<byte>, next: Phase): Read
    requires i < |r.tasks|
  {
    var c := r.tasks[i].chunk;
    if c.aligned <= c.from && c.from - c.aligned + c.copy <= |content| && c.addr + c.copy <= |r.buffer| then
      r.(buffer := Overwrite(r.buffer, c.addr, Slice(c, content))).At(i, next)
    else r.At(i, Failed)
  }

  /** What the handle's version holds at a chunk's place. */
  ghost function RemoteBytes(remote: Remote, r: Read, c: ReadChunk): (bytes: seq<byte>)
    requires c.aligned + c.size <= |remote(r.path, r.version)|
    ensures |bytes| == c.size
  {
    remote(r.path, r.version)[c.aligned..c.aligned + c.size]
  }

  ghost function Apply(remote: Remote, s: System, a: Action): System
    requires Enabled(remote, s, a)
  {
    match a
    case Begin(id, read) => s.(active := s.active[id := read])
    case Lookup(id, i, hit, store) =>
      var r := s.active[id];
      var phase := if hit then Hit(s.store[r.Key(i)].bytes) else Missed;
      s.(store := store, active := s.active[id := r.At(i, phase)])
    case CopyHit(id, i) =>
      s.(active := s.active[id := CopyInto(s.active[id], i, s.active[id].tasks[i].phase.content, Done)])
    case Fetch(id, i) =>
      var r := s.active[id];
      s.(active := s.active[id := r.At(i, Fetched(RemoteBytes(remote, r, r.tasks[i].chunk)))])
    case CopyFetched(id, i) =>
      var content := s.active[id].tasks[i].phase.content;
      s.(active := s.active[id := CopyInto(s.active[id], i, content, Copied(content))])
    case Insert(id, i, store) => s.(store := store, active := s.active[id := s.active[id].At(i, Done)])
    case Forget(store) => s.(store := store)
    case Drain(_, _, _, out) => s.(store := map[], pending := s.pending + out)
    case Restore(n, store) => s.(store := store, pending := s.pending[..n] + s.pending[n + 1..])
  }

  // Coherence.

  /** The byte is that of the tagged version, or of some version when there is no tag. */
  ghost predicate ByteOk(remote: Remote, path: string, tag: string, x: nat, b: byte) {
    if tag != "" then x < |remote(path, tag)| && remote(path, tag)[x] == b
    else exists v :: x < |remote(path, v)| && remote(path, v)[x] == b
  }

  ghost predicate BytesOk(remote: Remote, path: string, tag: string, start: nat, bytes: seq<byte>) {
    forall i {:trigger bytes[i]} :: 0 <= i < |bytes| ==> ByteOk(remote, path, tag, start + i, bytes[i])
  }

  /** An entry holds exactly its key's range of the file. */
  ghost predicate EntryOk(remote: Remote, k: Block, e: CacheEntry) {
    |e.bytes| == k.size && k.size > 0 && BytesOk(remote, k.fname, e.tag, k.start, e.bytes)
  }

  ghost predicate StoreOk(remote: Remote, store: Store) {
    forall k {:trigger store[k]} :: k in store ==> EntryOk(remote, k, store[k])
  }

  /** A task's content fits its chunk, and what it has copied is right. */
  ghost predicate TaskOk(remote: Remote, r: Read, i: nat)
    requires i < |r.tasks|
  {
    var c, phase := r.tasks[i].chunk, r.tasks[i].phase;
    && !phase.Failed?
    && (phase.Hit? || phase.Fetched? || phase.Copied? ==>
          |phase.content| == c.size && BytesOk(remote, r.path, r.tag, c.aligned, phase.content))
    && (phase.Copied? || phase.Done? ==>
          c.addr + c.copy <= |r.buffer| &&
          BytesOk(remote, r.path, r.tag, c.from, r.buffer[c.addr..c.addr + c.copy]))
  }

  ghost predicate ReadOk(remote: Remote, r: Read) {
    && (r.tag == "" || r.tag == r.version)
    && r.End() <= |remote(r.path, r.version)|
    && Tiles(Chunks(r.tasks), r.start, r.End(), |remote(r.path, r.version)|)
    && forall i {:trigger TaskOk(remote, r, i)} :: 0 <= i < |r.tasks| ==> TaskOk(remote, r, i)
  }

  ghost predicate Inv(remote: Remote, s: System) {
    && StoreOk(remote, s.store)
    && (forall n {:trigger s.pending[n]} :: 0 <= n < |s.pending| ==> EntryOk(remote, s.pending[n].0, s.pending[n].1))
    && (forall id {:trigger s.active[id]} :: id in s.active ==> ReadOk(remote, s.active[id]))
  }

  // Each action keeps the invariant.

  /** Without an expected tag, an entry of any tag will do. */
  lemma AnyTagWillDo(remote: Remote, path: string, cached: string, expected: string, start: nat, bytes: seq<byte>)
    requires BytesOk(remote, path, cached, start, bytes) && ValidTag(cached, expected)
    ensures BytesOk(remote, path, expected, start, bytes)
  {
    forall i | 0 <= i < |bytes| ensures ByteOk(remote, path, expected, start + i, bytes[i]) {
      assert ByteOk(remote, path, cached, start + i, bytes[i]);
      if cached != "" && expected == "" {
        assert start + i < |remote(path, cached)| && remote(path, cached)[start + i] == bytes[i];
      }
    }
  }

  lemma SubBytesOk(remote: Remote, path: string, tag: string, start: nat, bytes: seq<byte>, lo: nat, hi: nat)
    requires BytesOk(remote, path, tag, start, bytes) && lo <= hi <= |bytes|
    ensures BytesOk(remote, path, tag, start + lo, bytes[lo..hi])
  {
    forall i | 0 <= i < hi - lo ensures ByteOk(remote, path, tag, start + lo + i, bytes[lo..hi][i]) {
      assert bytes[lo..hi][i] == bytes[lo + i];
      assert start + (lo + i) == start + lo + i;
    }
  }

  lemma FetchedOk(remote: Remote, r: Read, c: ReadChunk)
    requires (r.tag == "" || r.tag == r.version) && c.aligned + c.size <= |remote(r.path, r.version)|
    ensures BytesOk(remote, r.path, r.tag, c.aligned, RemoteBytes(remote, r, c))
  {
    var bytes := RemoteBytes(remote, r, c);
    forall i | 0 <= i < c.size ensures ByteOk(remote, r.path, r.tag, c.aligned + i, bytes[i]) {
      assert bytes[i] == remote(r.path, r.version)[c.aligned + i];
    }
  }

  /** The slices of two chunks of a tiling never share a byte of the buffer. */
  lemma {:induction false} SlicesApart(chunks: seq<ReadChunk>, start: nat, end: nat, size: nat, i: nat, j: nat)
    requires Tiles(chunks, start, end, size) && i < j < |chunks|
    ensures chunks[i].End() <= chunks[j].from
    ensures chunks[i].addr + chunks[i].copy <= chunks[j].addr
  {
    assert chunks[j].from == EndOf(chunks[..j], start) == chunks[j - 1].End();
    assert WellPlaced(chunks[i], start, size) && WellPlaced(chunks[j], start, size);
    if i < j - 1 {
      SlicesApart(chunks, start, end, size, i, j - 1);
      assert WellPlaced(chunks[j - 1], start, size);
    }
  }

  /** Every slice lies inside the request. */
  lemma {:induction false} SliceInside(chunks: seq<ReadChunk>, start: nat, end: nat, size: nat, i: nat)
    requires Tiles(chunks, start, end, size) && i < |chunks|
    ensures chunks[i].addr + chunks[i].copy <= end - start
  {
    var last := |chunks| - 1;
    assert WellPlaced(chunks[i], start, size) && WellPlaced(chunks[last], start, size);
    if i < last {
      SlicesApart(chunks, start, end, size, i, last);
    }
  }

  /** A task is untouched when its phase, its slice of the buffer and the read's identity are. */
  lemma TaskCarries(remote: Remote, r: Read, r': Read, j: nat)
    requires j < |r.tasks| && j < |r'.tasks| && r'.tasks[j] == r.tasks[j] && TaskOk(remote, r, j)
    requires r'.path == r.path && r'.tag == r.tag && |r'.buffer| == |r.buffer|
    requires var d := r.tasks[j].chunk;
             d.addr + d.copy <= |r.buffer| ==>
               r'.buffer[d.addr..d.addr + d.copy] == r.buffer[d.addr..d.addr + d.copy]
    ensures TaskOk(remote, r', j)
  {
  }

  /** The same request and chunks, with every task in order. */
  lemma ReadCarries(remote: Remote, r: Read, r': Read)
    requires ReadOk(remote, r) && |r'.tasks| == |r.tasks| && |r'.buffer| == |r.buffer|
    requires r'.path == r.path && r'.tag == r.tag && r'.version == r.version && r'.start == r.start
    requires forall j :: 0 <= j < |r.tasks| ==> r'.tasks[j].chunk == r.tasks[j].chunk
    requires forall j {:trigger TaskOk(remote, r', j)} :: 0 <= j < |r'.tasks| ==> TaskOk(remote, r', j)
    ensures ReadOk(remote, r')
  {
    assert Chunks(r'.tasks) == Chunks(r.tasks);
  }

  /** A task changing phase without touching the buffer. */
  lemma PhaseChangeOk(remote: Remote, r: Read, i: nat, phase: Phase)
    requires ReadOk(remote, r) && i < |r.tasks| && TaskOk(remote, r.At(i, phase), i)
    ensures ReadOk(remote, r.At(i, phase))
  {
    var r' := r.At(i, phase);
    forall j | 0 <= j < |r'.tasks| ensures TaskOk(remote, r', j) {
      if j != i {
        assert TaskOk(remote, r, j);
        TaskCarries(remote, r, r', j);
      }
    }
    ReadCarries(remote, r, r');
  }

  /** The copied slice is right where it lands. */
  lemma CopiedSliceOk(remote: Remote, r: Read, i: nat, content: seq<byte>, next: Phase, size: nat)
    requires i < |r.tasks| && (next == Done || next == Copied(content))
    requires WellPlaced(r.tasks[i].chunk, r.start, size) && |content| == r.tasks[i].chunk.size
    requires r.tasks[i].chunk.addr + r.tasks[i].chunk.copy <= |r.buffer|
    requires BytesOk(remote, r.path, r.tag, r.tasks[i].chunk.aligned, content)
    ensures var c := r.tasks[i].chunk;
            var r' := CopyInto(r, i, content, next);
            r' == r.(buffer := Overwrite(r.buffer, c.addr, Slice(c, content))).At(i, next) &&
            TaskOk(remote, r', i)
  {
    var c := r.tasks[i].chunk;
    var r' := CopyInto(r, i, content, next);
    SubBytesOk(remote, r.path, r.tag, c.aligned, content, c.from - c.aligned, c.from - c.aligned + c.copy);
    assert r'.buffer[c.addr..c.addr + c.copy] == Slice(c, content);
  }

  /** Copying one task's slice puts the right bytes in place and disturbs no other task's. */
  lemma CopyOk(remote: Remote, r: Read, i: nat, content: seq<byte>, next: Phase)
    requires ReadOk(remote, r) && i < |r.tasks| && (next == Done || next == Copied(content))
    requires |content| == r.tasks[i].chunk.size
    requires BytesOk(remote, r.path, r.tag, r.tasks[i].chunk.aligned, content)
    ensures ReadOk(remote, CopyInto(r, i, content, next))
  {
    var size := |remote(r.path, r.version)|;
    assert WellPlaced(Chunks(r.tasks)[i], r.start, size);
    SliceInside(Chunks(r.tasks), r.start, r.End(), size, i);
    var r' := CopyInto(r, i, content, next);
    CopiedSliceOk(remote, r, i, content, next, size);
    forall j | 0 <= j < |r'.tasks| ensures TaskOk(remote, r', j) {
      if j != i {
        assert TaskOk(remote, r, j);
        OtherSliceKept(r, r', i, j, content, size);
        TaskCarries(remote, r, r', j);
      }
    }
    ReadCarries(remote, r, r');
  }

  lemma OtherSliceKept(r: Read, r': Read, i: nat, j: nat, content: seq<byte>, size: nat)
    requires i < |r.tasks| && j < |r.tasks| && i != j && Tiles(Chunks(r.tasks), r.start, r.End(), size)
    requires var c := r.tasks[i].chunk;
             c.aligned <= c.from && c.from - c.aligned + c.copy <= |content| && c.addr + c.copy <= |r.buffer| &&
             r'.buffer == Overwrite(r.buffer, c.addr, Slice(c, content))
    ensures var d := r.tasks[j].chunk;
            d.addr + d.copy <= |r.buffer| && r'.buffer[d.addr..d.addr + d.copy] == r.buffer[d.addr..d.addr + d.copy]
  {
    var chunks := Chunks(r.tasks);
    SliceInside(chunks, r.start, r.End(), size, j);
    if i < j {
      SlicesApart(chunks, r.start, r.End(), size, i, j);
    } else {
      SlicesApart(chunks, r.start, r.End(), size, j, i);
    }
  }

  lemma SubmapOk(remote: Remote, a: Store, b: Store)
    requires StoreOk(remote, b) && Submap(a, b)
    ensures StoreOk(remote, a)
  {
  }

  lemma OldOrNewOk(remote: Remote, a: Store, b: Store, key: Block, e: CacheEntry)
    requires StoreOk(remote, b) && EntryOk(remote, key, e) && OldOrNew(a, b, key, e)
    ensures StoreOk(remote, a)
  {
  }

  /** Remapped entries hold bytes that were cached for the same file and offset under the same tag. */
  lemma RemappedOk(remote: Remote, store: Store, taken: seq<R.Entry>, block: nat, sizes: map<string, nat>,
                   out: seq<R.Entry>, e: R.Entry)
    requires StoreOk(remote, store) && forall t :: t in taken ==> t.0 in store && store[t.0] == t.1
    requires block > 0 && R.IsRemapOf(taken, block, sizes, out) && e in out
    ensures EntryOk(remote, e.0, e.1)
  {
    forall t | t in taken ensures R.Sized(t) {
      assert EntryOk(remote, t.0, store[t.0]);
    }
    forall i | 0 <= i < |e.1.bytes| ensures ByteOk(remote, e.0.fname, e.1.tag, e.0.start + i, e.1.bytes[i]) {
      var x := e.0.start + i;
      assert R.SliceOf(e).Spans(x);
      var t := R.OutputByteWasCached(taken, block, sizes, out, e, x);
      assert EntryOk(remote, t.0, store[t.0]);
      var j := x - t.0.start;
      assert t.1.bytes[j] == e.1.bytes[i] && t.1.tag == e.1.tag;
      assert ByteOk(remote, t.0.fname, t.1.tag, t.0.start + j, t.1.bytes[j]);
    }
  }

  /** Replacing one active read by a sound one. */
  lemma OneReadInv(remote: Remote, s: System, id: nat, r: Read, store: Store)
    requires Inv(remote, s) && StoreOk(remote, store) && ReadOk(remote, r)
    ensures Inv(remote, s.(store := store, active := s.active[id := r]))
  {
  }

  lemma LookupInv(remote: Remote, s: System, a: Action)
    requires Inv(remote, s) && Enabled(remote, s, a) && a.Lookup?
    ensures Inv(remote, Apply(remote, s, a))
  {
    var r := s.active[a.id];
    assert ReadOk(remote, r) && TaskOk(remote, r, a.i);
    SubmapOk(remote, a.store, s.store);
    if a.hit {
      var key, e := r.Key(a.i), s.store[r.Key(a.i)];
      assert EntryOk(remote, key, e);
      AnyTagWillDo(remote, r.path, e.tag, r.tag, key.start, e.bytes);
      PhaseChangeOk(remote, r, a.i, Hit(e.bytes));
      OneReadInv(remote, s, a.id, r.At(a.i, Hit(e.bytes)), a.store);
    } else {
      PhaseChangeOk(remote, r, a.i, Missed);
      OneReadInv(remote, s, a.id, r.At(a.i, Missed), a.store);
    }
  }

  /** What a task inserts is a sound entry, and inserting it ends the task. */
  lemma InsertedOk(remote: Remote, r: Read, i: nat)
    requires ReadOk(remote, r) && i < |r.tasks| && r.tasks[i].phase.Copied?
    ensures EntryOk(remote, r.Key(i), CacheEntry(r.tasks[i].phase.content, r.tag))
    ensures ReadOk(remote, r.At(i, Done))
  {
    assert TaskOk(remote, r, i);
    assert WellPlaced(Chunks(r.tasks)[i], r.start, |remote(r.path, r.version)|);
    PhaseChangeOk(remote, r, i, Done);
  }

  lemma InsertInv(remote: Remote, s: System, a: Action)
    requires Inv(remote, s) && Enabled(remote, s, a) && a.Insert?
    ensures Inv(remote, Apply(remote, s, a))
  {
    var r := s.active[a.id];
    InsertedOk(remote, r, a.i);
    OldOrNewOk(remote, a.store, s.store, r.Key(a.i), CacheEntry(r.tasks[a.i].phase.content, r.tag));
    OneReadInv(remote, s, a.id, r.At(a.i, Done), a.store);
  }

  /** Taking hold of sound content for a chunk. */
  lemma ContentOk(remote: Remote, r: Read, i: nat, content: seq<byte>, phase: Phase)
    requires ReadOk(remote, r) && i < |r.tasks| && (phase == Hit(content) || phase == Fetched(content))
    requires |content| == r.tasks[i].chunk.size
    requires BytesOk(remote, r.path, r.tag, r.tasks[i].chunk.aligned, content)
    ensures ReadOk(remote, r.At(i, phase))
  {
    PhaseChangeOk(remote, r, i, phase);
  }

  lemma FetchInv(remote: Remote, s: System, a: Action)
    requires Inv(remote, s) && Enabled(remote, s, a) && a.Fetch?
    ensures Inv(remote, Apply(remote, s, a))
  {
    var r := s.active[a.id];
    assert ReadOk(remote, r);
    var content := RemoteBytes(remote, r, r.tasks[a.i].chunk);
    FetchedOk(remote, r, r.tasks[a.i].chunk);
    ContentOk(remote, r, a.i, content, Fetched(content));
    OneReadInv(remote, s, a.id, r.At(a.i, Fetched(content)), s.store);
  }

  lemma CopyInv(remote: Remote, s: System, a: Action)
    requires Inv(remote, s) && Enabled(remote, s, a) && (a.CopyHit? || a.CopyFetched?)
    ensures Inv(remote, Apply(remote, s, a))
  {
    var r := s.active[a.id];
    assert ReadOk(remote, r) && TaskOk(remote, r, a.i);
    var content := r.tasks[a.i].phase.content;
    var next := if a.CopyHit? then Done else Copied(content);
    CopyOk(remote, r, a.i, content, next);
    OneReadInv(remote, s, a.id, CopyInto(r, a.i, content, next), s.store);
  }

  lemma DrainInv(remote: Remote, s: System, a: Action)
    requires Inv(remote, s) && Enabled(remote, s, a) && a.Drain?
    ensures Inv(remote, Apply(remote, s, a))
  {
    forall n | 0 <= n < |a.out| ensures EntryOk(remote, a.out[n].0, a.out[n].1) {
      assert a.out[n] in a.out;
      RemappedOk(remote, s.store, a.taken, a.block, a.sizes, a.out, a.out[n]);
    }
  }

  lemma BeginInv(remote: Remote, s: System, a: Action)
    requires Inv(remote, s) && Enabled(remote, s, a) && a.Begin?
    ensures Inv(remote, Apply(remote, s, a))
  {
    forall i | 0 <= i < |a.read.tasks| ensures TaskOk(remote, a.read, i) {
    }
    OneReadInv(remote, s, a.id, a.read, s.store);
  }

  lemma StepInv(remote: Remote, s: System, a: Action)
    requires Inv(remote, s) && Enabled(remote, s, a)
    ensures Inv(remote, Apply(remote, s, a))
  {
    match a
    case Begin(_, _) => BeginInv(remote, s, a);
    case Lookup(_, _, _, _) => LookupInv(remote, s, a);
    case CopyHit(_, _) => CopyInv(remote, s, a);
    case Fetch(_, _) => FetchInv(remote, s, a);
    case CopyFetched(_, _) => CopyInv(remote, s, a);
    case Insert(_, _, _) => InsertInv(remote, s, a);
    case Forget(store) => SubmapOk(remote, store, s.store);
    case Drain(_, _, _, _) => DrainInv(remote, s, a);
    case Restore(n, store) =>
      OldOrNewOk(remote, store, s.store, s.pending[n].0, s.pending[n].1);
  }

  ghost predicate Execution(remote: Remote, states: seq<System>, actions: seq<Action>) {
    && |states| == |actions| + 1
    && states[0] == System(map[], [], map[])
    && (forall i :: 0 <= i < |actions| ==>
          Enabled(remote, states[i], actions[i]) && states[i + 1] == Apply(remote, states[i], actions[i]))
  }

  /** Coherence and the absence of copy errors, in every reachable state. */
  lemma {:induction false} EveryStateCoherent(remote: Remote, states: seq<System>, actions: seq<Action>, i: nat)
    requires Execution(remote, states, actions) && i < |states|
    ensures Inv(remote, states[i])
  {
    if i > 0 {
      EveryStateCoherent(remote, states, actions, i - 1);
      StepInv(remote, states[i - 1], actions[i - 1]);
    }
  }

  /** Every requested offset lies in some chunk's slice. */
  lemma {:induction false} OffsetHasChunk(chunks: seq<ReadChunk>, start: nat, end: nat, size: nat, x: nat) returns (i: nat)
    requires Tiles(chunks, start, end, size) && start <= x < end
    ensures i < |chunks| && chunks[i].from <= x < chunks[i].End()
  {
    var n := |chunks| - 1;
    assert chunks[n].from == EndOf(chunks[..n], start);
    if chunks[n].from <= x {
      return n;
    }
    var front := chunks[..n];
    forall k | 0 <= k < n ensures front[k].from == EndOf(front[..k], start) {
      assert front[..k] == chunks[..k];
      assert chunks[k].from == EndOf(chunks[..k], start);
    }
    forall k | 0 <= k < n ensures WellPlaced(front[k], start, size) {
      assert WellPlaced(chunks[k], start, size);
    }
    i := OffsetHasChunk(front, start, chunks[n].from, size, x);
  }

  lemma SliceByteOk(remote: Remote, path: string, tag: string, buffer: seq<byte>, start: nat, c: ReadChunk, x: nat)
    requires start <= c.from <= x < c.End() <= start + |buffer| && c.addr == c.from - start
    requires BytesOk(remote, path, tag, c.from, buffer[c.addr..c.addr + c.copy])
    ensures ByteOk(remote, path, tag, x, buffer[x - start])
  {
    assert buffer[c.addr..c.addr + c.copy][x - c.from] == buffer[x - start];
  }

  /** What a finished read's chunk has left in the buffer. */
  lemma FinishedSlice(remote: Remote, r: Read, x: nat) returns (c: ReadChunk)
    requires ReadOk(remote, r) && r.Complete() && r.start <= x < r.End()
    ensures r.start <= c.from <= x < c.End() <= r.End() && c.addr == c.from - r.start
    ensures BytesOk(remote, r.path, r.tag, c.from, r.buffer[c.addr..c.addr + c.copy])
  {
    var size := |remote(r.path, r.version)|;
    var i := OffsetHasChunk(Chunks(r.tasks), r.start, r.End(), size, x);
    assert WellPlaced(Chunks(r.tasks)[i], r.start, size) && TaskOk(remote, r, i);
    c := r.tasks[i].chunk;
  }

  /** A finished read holds, at every offset, an acceptable byte. */
  lemma CompleteReadOk(remote: Remote, r: Read)
    requires ReadOk(remote, r) && r.Complete()
    ensures BytesOk(remote, r.path, r.tag, r.start, r.buffer)
  {
    forall k | 0 <= k < |r.buffer| ensures ByteOk(remote, r.path, r.tag, r.start + k, r.buffer[k]) {
      var c := FinishedSlice(remote, r, r.start + k);
      SliceByteOk(remote, r.path, r.tag, r.buffer, r.start, c, r.start + k);
    }
  }

  /**
    The central promise with validation on: whatever was cached, evicted, cleared or remapped
    and however the tasks interleaved, a finished read is exactly the requested range of the
    version it asked for.
   */
  lemma ValidatedReadIsExact(remote: Remote, states: seq<System>, actions: seq<Action>, i: nat, id: nat)
    requires Execution(remote, states, actions) && i < |states| && id in states[i].active
    requires states[i].active[id].Complete() && states[i].active[id].tag != ""
    ensures var r := states[i].active[id];
            r.End() <= |remote(r.path, r.version)| && r.buffer == remote(r.path, r.version)[r.start..r.End()]
  {
    EveryStateCoherent(remote, states, actions, i);
    var r := states[i].active[id];
    assert ReadOk(remote, r);
    CompleteReadOk(remote, r);
    forall k | 0 <= k < |r.buffer| ensures r.buffer[k] == remote(r.path, r.version)[r.start..r.End()][k] {
      assert ByteOk(remote, r.path, r.tag, r.start + k, r.buffer[k]);
    }
  }

  /** All versions of the file agree wherever both have bytes. */
  ghost predicate Unchanging(remote: Remote, path: string) {
    forall v, w, x: nat :: x < |remote(path, v)| && x < |remote(path, w)| ==> remote(path, v)[x] == remote(path, w)[x]
  }

  /** With validation off the same holds of files that never change. */
  lemma UnvalidatedReadOfUnchangingFileIsExact(
    remote: Remote, states: seq<System>, actions: seq<Action>, i: nat, id: nat)
    requires Execution(remote, states, actions) && i < |states| && id in states[i].active
    requires states[i].active[id].Complete() && Unchanging(remote, states[i].active[id].path)
    ensures var r := states[i].active[id];
            r.End() <= |remote(r.path, r.version)| && r.buffer == remote(r.path, r.version)[r.start..r.End()]
  {
    EveryStateCoherent(remote, states, actions, i);
    var r := states[i].active[id];
    assert ReadOk(remote, r);
    CompleteReadOk(remote, r);
    forall k | 0 <= k < |r.buffer| ensures r.buffer[k] == remote(r.path, r.version)[r.start..r.End()][k] {
      assert ByteOk(remote, r.path, r.tag, r.start + k, r.buffer[k]);
      var v :| r.start + k < |remote(r.path, v)| && remote(r.path, v)[r.start + k] == r.buffer[k];
      assert remote(r.path, v)[r.start + k] == remote(r.path, r.version)[r.start + k];
    }
  }
}
