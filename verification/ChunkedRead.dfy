/** Cutting a read request into cache entries, and copying each entry's slice into the caller's buffer. */
module ChunkedRead {
  import opened Blocks
  import opened Grid

  /** One entry to read: where it lies in the file, and which part goes where in the buffer. */
  datatype ReadChunk = ReadChunk(addr: nat, from: nat, aligned: nat, size: nat, copy: nat) {
    function End(): nat {
      from + copy
    }
  }

  /** The copied slice lies inside the entry, the entry inside the file, and the slice at its place in the buffer. */
  predicate WellPlaced(c: ReadChunk, start: nat, fileSize: nat) {
    && start <= c.from && c.addr == c.from - start && c.copy > 0
    && c.aligned <= c.from && c.End() <= c.aligned + c.size <= fileSize
  }

  function EndOf(chunks: seq<ReadChunk>, start: nat): nat {
    if chunks == [] then start else chunks[|chunks| - 1].End()
  }

  /** The slices follow each other without gap or overlap and cover exactly [start, end). */
  predicate Tiles(chunks: seq<ReadChunk>, start: nat, end: nat, fileSize: nat) {
    && (forall i :: 0 <= i < |chunks| ==> WellPlaced(chunks[i], start, fileSize))
    && (forall i :: 0 <= i < |chunks| ==> chunks[i].from == EndOf(chunks[..i], start))
    && EndOf(chunks, start) == end
  }

  lemma TilesAppend(chunks: seq<ReadChunk>, start: nat, end: nat, fileSize: nat, c: ReadChunk)
    requires Tiles(chunks, start, end, fileSize) && WellPlaced(c, start, fileSize) && c.from == end
    ensures Tiles(chunks + [c], start, c.End(), fileSize)
  {
    var all := chunks + [c];
    forall i | 0 <= i < |all| ensures all[i].from == EndOf(all[..i], start) {
      if i < |chunks| {
        assert all[..i] == chunks[..i];
      } else {
        assert all[..i] == chunks;
      }
    }
  }

  datatype Alignment = Alignment(first: nat, last: nat, count: nat)

  /** The grid blocks holding the first and the last requested byte, and how many blocks that spans. */
  function CalculateChunkAlignment(start: nat, len: nat, block: nat): (r: Alignment)
    requires block > 0 && len > 0
    ensures OnGrid(r.first, block) && r.first <= start < r.first + block
    ensures OnGrid(r.last, block) && r.last <= start + len - 1 < r.last + block
    ensures r.first <= r.last
    ensures r.count > 0 && r.last == r.first + (r.count - 1) * block
  {
    var first, last := FloorTo(start, block), FloorTo(start + len - 1, block);
    FloorMonotone(start, start + len - 1, block);
    GridSpan(first, last, block);
    Alignment(first, last, (last - first) / block + 1)
  }

  lemma FloorMonotone(x: nat, y: nat, block: nat)
    requires block > 0 && x <= y
    ensures FloorTo(x, block) <= FloorTo(y, block)
  {
    if FloorTo(y, block) < FloorTo(x, block) {
      GridPointsApart(FloorTo(y, block), FloorTo(x, block), block);
    }
  }

  function Min(a: nat, b: nat): nat {
    if a <= b then a else b
  }

  /** The i-th chunk is the i-th grid block of the request, cut short only by the end of the file. */
  predicate IsBlock(c: ReadChunk, block: nat, fileSize: nat)
    requires block > 0
  {
    OnGrid(c.aligned, block) && c.aligned <= fileSize && c.size == Min(block, fileSize - c.aligned)
  }

  /** The slices tile [start, end) and the entries are consecutive grid blocks from `first` on. */
  predicate GridPlan(chunks: seq<ReadChunk>, start: nat, end: nat, first: nat, block: nat, fileSize: nat)
    requires block > 0
  {
    && Tiles(chunks, start, end, fileSize)
    && (forall i :: 0 <= i < |chunks| ==> IsBlock(chunks[i], block, fileSize))
    && (forall i :: 0 <= i < |chunks| ==> Follows(chunks, i, first, block))
  }

  predicate Follows(chunks: seq<ReadChunk>, i: nat, first: nat, block: nat)
    requires i < |chunks|
  {
    chunks[i].aligned == if i == 0 then first else chunks[i - 1].aligned + block
  }

  function NextBlock(chunks: seq<ReadChunk>, first: nat, block: nat): nat {
    if chunks == [] then first else chunks[|chunks| - 1].aligned + block
  }

  lemma GridPlanAppend(chunks: seq<ReadChunk>, start: nat, end: nat, first: nat, block: nat, fileSize: nat, c: ReadChunk)
    requires block > 0 && GridPlan(chunks, start, end, first, block, fileSize)
    requires WellPlaced(c, start, fileSize) && c.from == end && IsBlock(c, block, fileSize)
    requires c.aligned == NextBlock(chunks, first, block)
    ensures GridPlan(chunks + [c], start, c.End(), first, block, fileSize)
    ensures NextBlock(chunks + [c], first, block) == c.aligned + block
  {
    TilesAppend(chunks, start, end, fileSize, c);
    forall i | 0 <= i <= |chunks| ensures Follows(chunks + [c], i, first, block) {
      if i < |chunks| {
        assert Follows(chunks, i, first, block);
      }
    }
  }

  /** The chunk of the grid block at `io`: only block, first block, last block, or one in between. */
  function CutChunk(al: Alignment, io: nat, from: nat, done: nat, len: nat, block: nat, fileSize: nat): ReadChunk
    requires io <= from && io < fileSize && from - io <= block && done <= len
  {
    if io == al.first && io == al.last then
      ReadChunk(done, from, io, Min(block, fileSize - io), len)
    else if io == al.first then
      ReadChunk(done, from, io, block, block - (from - io))
    else if io == al.last then
      ReadChunk(done, from, io, Min(block, fileSize - io), len - done)
    else
      ReadChunk(done, from, io, block, block)
  }

  lemma CutChunkFits(al: Alignment, io: nat, from: nat, start: nat, len: nat, block: nat, fileSize: nat)
    requires block > 0 && len > 0 && start + len <= fileSize && al == CalculateChunkAlignment(start, len, block)
    requires OnGrid(io, block) && al.first <= io <= al.last && from == if io == al.first then start else io
    ensures io <= from && io < fileSize && from - io <= block && start <= from <= start + len
    ensures OnGrid(io + block, block)
    ensures var c := CutChunk(al, io, from, from - start, len, block, fileSize);
            && WellPlaced(c, start, fileSize) && IsBlock(c, block, fileSize) && c.from == from && c.aligned == io
            && (io < al.last ==> io + block <= al.last && c.End() == io + block)
            && (io == al.last ==> c.End() == start + len)
  {
    NextOnGrid(io, block);
    if al.first < io {
      BeforeLast(al.first, io, block);
    }
    if io < al.last {
      BeforeLast(io, al.last, block);
    }
  }

  /** The loop's progress: the blocks before `io` are planned and `from` is where the next slice starts. */
  predicate PlannedTo(chunks: seq<ReadChunk>, al: Alignment, io: nat, from: nat,
                      start: nat, len: nat, block: nat, fileSize: nat)
    requires block > 0
  {
    && OnGrid(io, block) && al.first <= io <= al.last + block && io == NextBlock(chunks, al.first, block)
    && (io == al.first <==> chunks == [])
    && (io <= al.last ==> from == if io == al.first then start else io)
    && GridPlan(chunks, start, if io <= al.last then from else start + len, al.first, block, fileSize)
  }

  lemma PlannedFirst(al: Alignment, start: nat, len: nat, block: nat, fileSize: nat)
    requires block > 0 && len > 0 && start + len <= fileSize && al == CalculateChunkAlignment(start, len, block)
    ensures al.first <= al.last && PlannedTo([], al, al.first, start, start, len, block, fileSize)
  {
  }

  lemma PlannedLast(chunks: seq<ReadChunk>, al: Alignment, io: nat, from: nat,
                    start: nat, len: nat, block: nat, fileSize: nat)
    requires block > 0 && len > 0 && start + len <= fileSize && al == CalculateChunkAlignment(start, len, block)
    requires io > al.last && PlannedTo(chunks, al, io, from, start, len, block, fileSize)
    ensures GridPlan(chunks, start, start + len, al.first, block, fileSize) && |chunks| == al.count
  {
    CountBlocks(chunks, start, len, al, block, fileSize, io);
  }

  lemma PlannedNext(chunks: seq<ReadChunk>, al: Alignment, io: nat, from: nat, done: nat,
                    start: nat, len: nat, block: nat, fileSize: nat)
    requires block > 0 && len > 0 && start + len <= fileSize && al == CalculateChunkAlignment(start, len, block)
    requires io <= al.last && start + done == from && PlannedTo(chunks, al, io, from, start, len, block, fileSize)
    ensures io <= from && io < fileSize && from - io <= block && done <= len
    ensures var c := CutChunk(al, io, from, done, len, block, fileSize);
            && PlannedTo(chunks + [c], al, io + block, io + block, start, len, block, fileSize)
            && (io < al.last ==> from + c.copy == io + block)
  {
    CutChunkFits(al, io, from, start, len, block, fileSize);
    var c := CutChunk(al, io, from, done, len, block, fileSize);
    GridPlanAppend(chunks, start, from, al.first, block, fileSize, c);
    if io < al.last {
      BeforeLast(io, al.last, block);
    }
  }

  /** The fixed-grid loop with its four cases. */
  method FixedGridChunks(start: nat, len: nat, block: nat, fileSize: nat) returns (chunks: seq<ReadChunk>)
    requires block > 0 && start + len <= fileSize
    ensures Tiles(chunks, start, start + len, fileSize)
    ensures len > 0 ==> var al := CalculateChunkAlignment(start, len, block);
                        GridPlan(chunks, start, start + len, al.first, block, fileSize) && |chunks| == al.count
  {
    chunks := [];
    if len == 0 {
      return;
    }
    var al := CalculateChunkAlignment(start, len, block);
    var done: nat, from: nat, io: nat := 0, start, al.first;
    PlannedFirst(al, start, len, block, fileSize);
    while io <= al.last
      invariant PlannedTo(chunks, al, io, from, start, len, block, fileSize)
      invariant io <= al.last ==> start + done == from
      decreases al.last + block - io
    {
      PlannedNext(chunks, al, io, from, done, start, len, block, fileSize);
      // The skip for a chunk that would start at the end of the file is never taken.
      assert io != fileSize;
      var c := CutChunk(al, io, from, done, len, block, fileSize);
      chunks := chunks + [c];
      done := done + c.copy;
      from := io + block;
      io := io + block;
    }
    PlannedLast(chunks, al, io, from, start, len, block, fileSize);
  }

  /** A plan that has passed the last block has as many entries as the request spans blocks. */
  lemma CountBlocks(chunks: seq<ReadChunk>, start: nat, len: nat, al: Alignment, block: nat, fileSize: nat, io: nat)
    requires block > 0 && len > 0 && al == CalculateChunkAlignment(start, len, block)
    requires GridPlan(chunks, start, start + len, al.first, block, fileSize) && chunks != []
    requires io == NextBlock(chunks, al.first, block) && OnGrid(io, block) && al.last < io <= al.last + block
    ensures |chunks| == al.count
  {
    PlanCount(chunks, start, start + len, al.first, block, fileSize, |chunks| - 1);
    LastBlock(io, al.last, block);
    MulSuccessor(|chunks| - 1, block);
    DivisionIsUnique(al.last - al.first, block, |chunks| - 1, 0);
  }

  /** Consecutive grid blocks are evenly spaced. */
  lemma {:induction false} PlanCount(
    chunks: seq<ReadChunk>, start: nat, end: nat, first: nat, block: nat, fileSize: nat, n: nat)
    requires block > 0 && GridPlan(chunks, start, end, first, block, fileSize) && n < |chunks|
    ensures chunks[n].aligned == first + n * block
  {
    assert Follows(chunks, n, first, block);
    if n > 0 {
      PlanCount(chunks, start, end, first, block, fileSize, n - 1);
      MulSuccessor(n - 1, block);
    }
  }

  lemma BeforeLast(io: nat, last: nat, block: nat)
    requires block > 0 && OnGrid(io, block) && OnGrid(last, block) && io < last
    ensures io + block <= last
  {
    GridPointsApart(io, last, block);
  }

  lemma LastBlock(io: nat, last: nat, block: nat)
    requires block > 0 && OnGrid(io, block) && OnGrid(last, block) && last < io <= last + block
    ensures io == last + block
  {
    GridPointsApart(last, io, block);
  }

  /** `buffer` with `bytes` written at `offset`. */
  function Overwrite(buffer: seq<byte>, offset: nat, bytes: seq<byte>): (r: seq<byte>)
    requires offset + |bytes| <= |buffer|
    ensures |r| == |buffer|
    ensures forall i :: 0 <= i < |r| ==> r[i] == if offset <= i < offset + |bytes| then bytes[i - offset] else buffer[i]
  {
    buffer[..offset] + bytes + buffer[offset + |bytes|..]
  }

  /** Copy out of a chunk; asking for more than its valid bytes is an error and copies nothing. */
  method CopyTo(content: seq<byte>, buffer: array<byte>, dest: nat, src: nat, len: nat) returns (ok: bool)
    requires dest + len <= buffer.Length
    modifies buffer
    ensures ok == (src + len <= |content|)
    ensures buffer[..] == if ok then Overwrite(old(buffer[..]), dest, content[src..src + len]) else old(buffer[..])
  {
    if src + len > |content| {
      return false;
    }
    ghost var bytes := content[src..src + len];
    forall i | 0 <= i < len {
      buffer[dest + i] := content[src + i];
    }
    assert forall i :: 0 <= i < len ==> buffer[dest + i] == bytes[i];
    return true;
  }

  /** Copying a well-placed chunk out of its full entry never fails. */
  method CopyBufferToRequestedMemory(c: ReadChunk, content: seq<byte>, buffer: array<byte>, ghost start: nat,
                                     ghost fileSize: nat) returns (ok: bool)
    requires WellPlaced(c, start, fileSize) && |content| == c.size && c.addr + c.copy <= buffer.Length
    modifies buffer
    ensures ok
    ensures buffer[..] == Overwrite(old(buffer[..]), c.addr, Slice(c, content))
  {
    ok := CopyTo(content, buffer, c.addr, c.from - c.aligned, c.copy);
  }

  /** The part of an entry that a chunk copies. */
  function Slice(c: ReadChunk, content: seq<byte>): (r: seq<byte>)
    requires c.aligned <= c.from && c.End() <= c.aligned + |content|
    ensures |r| == c.copy
  {
    content[c.from - c.aligned..c.from - c.aligned + c.copy]
  }
}
