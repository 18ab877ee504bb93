/** Cutting a request into whole column chunks and gap entries. A file size of 0 means unknown. */
module ColumnPlanner {
  import opened ChunkedRead
  import opened LayoutRegistry

  function Max(a: nat, b: nat): nat {
    if a >= b then a else b
  }

  /** An entry's size once it is cut at a known end of file. */
  function Clipped(start: nat, size: nat, fileSize: nat): nat
    requires fileSize > 0 ==> start <= fileSize
  {
    if fileSize == 0 then size else Min(size, fileSize - start)
  }

  /** Where a plan for [start, end) stops: at the end of the request or of the file. */
  function StopAt(start: nat, end: nat, fileSize: nat): nat {
    if fileSize == 0 || end <= fileSize then end else Max(start, fileSize)
  }

  /** The entry is a registered extent, cut short only by the end of the file. */
  predicate WholeExtent(c: ReadChunk, extents: seq<Extent>, fileSize: nat) {
    exists e :: e in extents && c.aligned == e.offset && (fileSize > 0 ==> e.offset <= fileSize) &&
                c.size == Clipped(e.offset, e.size, fileSize)
  }

  /**
    The entry starts where the copy starts and meets no extent; it ends at its cap, at an extent,
    or at the end of the file (of the request, when the file size is unknown).
   */
  predicate GapEntry(c: ReadChunk, extents: seq<Extent>, cap: nat, end: nat, fileSize: nat) {
    && c.aligned == c.from && c.size <= cap && MeetsNone(extents, c.aligned, c.aligned + c.size)
    && (c.size == cap || c.aligned + c.size == (if fileSize > 0 then fileSize else end) ||
        StartsThere(extents, c.aligned + c.size))
  }

  predicate MeetsNone(extents: seq<Extent>, lo: nat, hi: nat) {
    forall e :: e in extents ==> e.End() <= lo || hi <= e.offset
  }

  predicate StartsThere(extents: seq<Extent>, x: nat) {
    exists e :: e in extents && e.offset == x
  }

  predicate ColumnEntry(c: ReadChunk, extents: seq<Extent>, cap: nat, end: nat, fileSize: nat) {
    WholeExtent(c, extents, fileSize) || GapEntry(c, extents, cap, end, fileSize)
  }

  /** The uncut entry for a position: the extent around it, or the capped gap up to the next extent. */
  predicate UncutEntry(start: nat, size: nat, extents: seq<Extent>, pos: nat, cap: nat, end: nat, fileSize: nat) {
    || Extent(start, size) in extents
    || (start == pos && size <= cap && MeetsNone(extents, pos, pos + size) &&
        (size == cap || pos + size == Max(end, fileSize) || StartsThere(extents, pos + size)))
  }

  method EntryAt(registry: Registry, path: string, pos: nat, end: nat, cap: nat, fileSize: nat)
    returns (start: nat, size: nat)
    requires registry.Valid() && pos < end && cap > 0
    ensures start <= pos < start + size
    ensures UncutEntry(start, size, registry.Extents(path), pos, cap, end, fileSize)
  {
    var found := registry.Find(path, pos);
    if found.Some? {
      return found.value.offset, found.value.size;
    }
    var next := registry.NextStart(path, pos);
    NoExtentStartsAt(registry.Extents(path), pos);
    var gapEnd := if next.Some? then next.value else Max(end, fileSize);
    start, size := pos, Min(cap, gapEnd - pos);
    GapMeetsNoExtent(registry.Extents(path), pos, gapEnd);
  }

  /** A position no extent covers is not an extent's start either. */
  lemma NoExtentStartsAt(extents: seq<Extent>, pos: nat)
    requires Clean(extents) && forall e :: e in extents ==> !e.Covers(pos)
    ensures forall e :: e in extents ==> e.offset != pos
  {
    forall e | e in extents ensures e.offset != pos {
      assert !e.Covers(pos) && e.size > 0;
    }
  }

  lemma GapMeetsNoExtent(extents: seq<Extent>, pos: nat, gapEnd: nat)
    requires forall e :: e in extents ==> !e.Covers(pos)
    requires forall e :: e in extents && e.offset >= pos ==> gapEnd <= e.offset
    ensures MeetsNone(extents, pos, gapEnd)
  {
  }

  /** Cutting an entry that holds a byte of the file leaves an entry of the plan. */
  lemma CutEntry(start: nat, size: nat, extents: seq<Extent>, pos: nat, cap: nat, end: nat, fileSize: nat, c: ReadChunk)
    requires UncutEntry(start, size, extents, pos, cap, end, fileSize)
    requires start <= pos < start + size && (fileSize > 0 ==> pos < fileSize)
    requires c.aligned == start && c.size == Clipped(start, size, fileSize) && c.from == pos
    ensures ColumnEntry(c, extents, cap, end, fileSize)
  {
    if Extent(start, size) in extents {
      assert WholeExtent(c, extents, fileSize);
    }
  }

  /** Any bound beyond every entry will do for a plan of unknown file size. */
  lemma WiderAppend(chunks: seq<ReadChunk>, start: nat, end: nat, limit: nat, wider: nat, c: ReadChunk)
    requires Tiles(chunks, start, end, limit) && limit <= wider && WellPlaced(c, start, wider) && c.from == end
    ensures Tiles(chunks + [c], start, c.End(), wider)
  {
    forall i | 0 <= i < |chunks| ensures WellPlaced(chunks[i], start, wider) {
      assert WellPlaced(chunks[i], start, limit);
    }
    TilesAppend(chunks, start, end, wider, c);
  }

  /**
    The planner loop. The request up to the end of a known file is tiled exactly; the defensive
    stops are only reached by a request that passes that end. `limit` bounds the entries: the
    file size when it is known.
   */
  method PlanColumnChunks(registry: Registry, path: string, start: nat, len: nat, fileSize: nat, maxGap: nat)
    returns (chunks: seq<ReadChunk>, ghost limit: nat)
    requires registry.Valid()
    ensures fileSize > 0 ==> limit == fileSize
    ensures Tiles(chunks, start, StopAt(start, start + len, fileSize), limit)
    ensures var cap := if maxGap > 0 then maxGap else len;
            forall i :: 0 <= i < |chunks| ==> ColumnEntry(chunks[i], registry.Extents(path), cap, start + len, fileSize)
  {
    chunks, limit := [], fileSize;
    if len == 0 {
      return;
    }
    var end := start + len;
    var cap := if maxGap > 0 then maxGap else len;
    var pos := start;
    while pos < end
      invariant start <= pos <= StopAt(start, end, fileSize) <= end
      invariant fileSize > 0 ==> limit == fileSize
      invariant Tiles(chunks, start, pos, limit)
      invariant forall i :: 0 <= i < |chunks| ==> ColumnEntry(chunks[i], registry.Extents(path), cap, end, fileSize)
      decreases end - pos
    {
      var entryStart, entrySize := EntryAt(registry, path, pos, end, cap, fileSize);
      ghost var uncut := entrySize;
      if fileSize > 0 {
        if entryStart >= fileSize {
          break;
        }
        entrySize := Min(entrySize, fileSize - entryStart);
      }
      if entrySize == 0 {
        break;
      }
      var copyFrom, copyTo := Max(pos, entryStart), Min(end, entryStart + entrySize);
      if copyTo <= copyFrom {
        break;
      }
      var c := ReadChunk(copyFrom - start, copyFrom, entryStart, entrySize, copyTo - copyFrom);
      CutEntry(entryStart, uncut, registry.Extents(path), pos, cap, end, fileSize, c);
      ghost var wider := if fileSize > 0 then limit else Max(limit, entryStart + entrySize);
      WiderAppend(chunks, start, pos, limit, wider, c);
      limit := wider;
      chunks := chunks + [c];
      pos := copyTo;
    }
  }
}
