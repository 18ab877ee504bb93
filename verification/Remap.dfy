/** The remap itself: index the drained entries by file, find contiguous same-tag runs, re-cut each run. */
module Remap {
  import opened Blocks
  import opened Grid
  import opened Sequences
  import opened RemapSpec

  // Runs of segments.

  /** Segments that follow each other without a gap, all under one tag. */
  predicate IsRun(segs: seq<Slice>, tag: string) {
    && (forall i :: 0 <= i < |segs| ==> segs[i].bytes != [] && segs[i].tag == tag)
    && (forall i {:trigger segs[i].End()} :: 0 <= i < |segs| - 1 ==> segs[i].End() == segs[i + 1].start)
  }

  ghost function Flat(segs: seq<Slice>): seq<byte> {
    if segs == [] then [] else Flat(segs[..|segs| - 1]) + segs[|segs| - 1].bytes
  }

  lemma {:induction false} RunLength(segs: seq<Slice>, tag: string)
    requires IsRun(segs, tag) && segs != []
    ensures segs[0].start + |Flat(segs)| == segs[|segs| - 1].End()
  {
    var n := |segs| - 1;
    if n == 0 {
      assert segs[..0] == [];
    } else {
      RunLength(segs[..n], tag);
    }
  }

  predicate SitsAt(flat: seq<byte>, bytes: seq<byte>, at: nat) {
    at + |bytes| <= |flat| && flat[at..at + |bytes|] == bytes
  }

  lemma SitsInFront(a: seq<byte>, b: seq<byte>, bytes: seq<byte>, at: nat)
    requires SitsAt(a, bytes, at)
    ensures SitsAt(a + b, bytes, at)
  {
    assert (a + b)[at..at + |bytes|] == a[at..at + |bytes|];
  }

  lemma SitsBehind(a: seq<byte>, b: seq<byte>)
    ensures SitsAt(a + b, b, |a|)
  {
  }

  lemma SatByte(flat: seq<byte>, bytes: seq<byte>, at: nat, k: nat)
    requires SitsAt(flat, bytes, at) && k < |bytes|
    ensures flat[at + k] == bytes[k]
  {
    assert flat[at..at + |bytes|][k] == flat[at + k];
  }

  /** Where segment `i` sits in the flattened run. */
  lemma {:induction false} FlatAt(segs: seq<Slice>, tag: string, i: nat)
    requires IsRun(segs, tag) && i < |segs|
    ensures segs[0].start <= segs[i].start && SitsAt(Flat(segs), segs[i].bytes, segs[i].start - segs[0].start)
  {
    var n := |segs| - 1;
    var front := segs[..n];
    if i < n {
      assert front[i] == segs[i] && front[0] == segs[0] && IsRun(front, tag);
      FlatAt(front, tag, i);
      SitsInFront(Flat(front), segs[n].bytes, segs[i].bytes, segs[i].start - segs[0].start);
    } else {
      FlatBack(segs, tag);
      SitsBehind(Flat(front), segs[n].bytes);
    }
  }

  lemma FlatBack(segs: seq<Slice>, tag: string)
    requires IsRun(segs, tag) && segs != []
    ensures segs[0].start + |Flat(segs[..|segs| - 1])| == segs[|segs| - 1].start
  {
    var n := |segs| - 1;
    if n == 0 {
      assert segs[..0] == [];
    } else {
      assert segs[..n][n - 1].End() == segs[n].start;
      RunLength(segs[..n], tag);
    }
  }

  /** The segment holding `pos`, searched from `hint` on; the run always has one. */
  method FindSegment(segs: seq<Slice>, ghost tag: string, hint: nat, pos: nat) returns (idx: nat)
    requires IsRun(segs, tag) && hint < |segs| && segs[hint].start <= pos < segs[|segs| - 1].End()
    ensures hint <= idx < |segs| && segs[idx].Spans(pos)
  {
    idx := hint;
    while idx < |segs| && pos >= segs[idx].End()
      invariant hint <= idx < |segs| && segs[idx].start <= pos
    {
      idx := idx + 1;
    }
  }

  method Memcpy(dest: array<byte>, at: nat, bytes: seq<byte>)
    requires at + |bytes| <= dest.Length
    modifies dest
    ensures dest[..at + |bytes|] == old(dest[..at]) + bytes
  {
    forall k | 0 <= k < |bytes| {
      dest[at + k] := bytes[k];
    }
  }

  /** The `len` bytes of the run from file offset `from` on. */
  ghost function Window(segs: seq<Slice>, from: nat, len: nat): seq<byte>
    requires segs != [] && segs[0].start <= from && from - segs[0].start + len <= |Flat(segs)|
  {
    Flat(segs)[from - segs[0].start..from - segs[0].start + len]
  }

  lemma InsideRun(segs: seq<Slice>, tag: string, i: nat, from: nat, len: nat)
    requires IsRun(segs, tag) && i < |segs| && segs[i].start <= from && from + len <= segs[|segs| - 1].End()
    ensures segs[0].start <= from && from - segs[0].start + len <= |Flat(segs)|
  {
    RunLength(segs, tag);
    FlatAt(segs, tag, i);
  }

  /** A slice of the segment holding the next byte extends the window. */
  lemma WindowGrows(segs: seq<Slice>, tag: string, i: nat, from: nat, done: nat, inner: nat, chunk: nat)
    requires IsRun(segs, tag) && i < |segs| && segs[i].start + inner == from + done && inner + chunk <= |segs[i].bytes|
    requires segs[0].start <= from && from - segs[0].start + done + chunk <= |Flat(segs)|
    ensures Window(segs, from, done) + segs[i].bytes[inner..inner + chunk] == Window(segs, from, done + chunk)
  {
    FlatAt(segs, tag, i);
    Continued(Flat(segs), from - segs[0].start, done, chunk, segs[i].bytes, segs[i].start - segs[0].start, inner);
  }

  lemma {:induction false} Continued(
    flat: seq<byte>, lo: nat, done: nat, chunk: nat, bytes: seq<byte>, at: nat, inner: nat)
    requires at + inner == lo + done && inner + chunk <= |bytes| && at + |bytes| <= |flat|
    requires flat[at..at + |bytes|] == bytes
    ensures flat[lo..lo + done] + bytes[inner..inner + chunk] == flat[lo..lo + (done + chunk)]
  {
    SliceOfSlice(flat, at, at + |bytes|, inner, inner + chunk);
    assert flat[lo..lo + done] + flat[lo + done..lo + done + chunk] == flat[lo..lo + done + chunk];
  }

  /** Gather `len` bytes of the run into `dest`, walking the segments from `hint` on. */
  method CopyRange(segs: seq<Slice>, ghost tag: string, hint: nat, from: nat, len: nat, dest: array<byte>)
    requires IsRun(segs, tag) && hint < |segs| && len <= dest.Length
    requires segs[hint].start <= from && from + len <= segs[|segs| - 1].End()
    modifies dest
    ensures segs[0].start <= from && from - segs[0].start + len <= |Flat(segs)|
    ensures dest[..len] == Window(segs, from, len)
  {
    InsideRun(segs, tag, hint, from, len);
    var done: nat, idx: nat := 0, hint;
    while done < len
      invariant done <= len && idx < |segs| && segs[idx].start <= from + done
      invariant dest[..done] == Window(segs, from, done)
    {
      idx := FindSegment(segs, tag, idx, from + done);
      var inner := from + done - segs[idx].start;
      var chunk := if |segs[idx].bytes| - inner <= len - done then |segs[idx].bytes| - inner else len - done;
      WindowGrows(segs, tag, idx, from, done, inner, chunk);
      Memcpy(dest, done, segs[idx].bytes[inner..inner + chunk]);
      done := done + chunk;
    }
  }

  lemma {:induction false} SliceOfSlice(s: seq<byte>, a: nat, b: nat, c: nat, d: nat)
    requires a <= b <= |s| && c <= d <= b - a
    ensures s[a..b][c..d] == s[a + c..a + d]
  {
    var t := s[a..b];
    forall i | 0 <= i < d - c ensures t[c..d][i] == s[a + c..a + d][i] {
      assert t[c..d][i] == t[c + i] == s[a + (c + i)];
    }
  }

  // Re-cutting one run.

  /** The run is a stretch of the cover that cannot be extended to the right. */
  ghost predicate RunOf(cov: Cover, segs: seq<Slice>, tag: string) {
    CoveredRun(segs, tag, cov) && !TagIs(cov, segs[|segs| - 1].End(), tag)
  }

  /** Segments that follow each other under one tag, every byte of them covered. */
  ghost predicate CoveredRun(segs: seq<Slice>, tag: string, cov: Cover) {
    IsRun(segs, tag) && segs != [] && forall i :: 0 <= i < |segs| ==> Within(segs[i], cov)
  }

  lemma CoveredFront(segs: seq<Slice>, tag: string, cov: Cover)
    requires CoveredRun(segs, tag, cov) && |segs| > 1
    ensures var n := |segs| - 1;
            && CoveredRun(segs[..n], tag, cov) && segs[..n][0] == segs[0]
            && segs[..n][n - 1].End() == segs[n].start
  {
    var n := |segs| - 1;
    var front := segs[..n];
    assert segs[n - 1].End() == segs[n].start;
    forall i | 0 <= i < n ensures front[i] == segs[i] && Within(front[i], cov) {
    }
  }

  lemma BackCell(segs: seq<Slice>, tag: string, cov: Cover, x: nat)
    requires CoveredRun(segs, tag, cov) && segs[|segs| - 1].Spans(x)
    ensures segs[0].start <= x && x - segs[0].start < |Flat(segs)|
    ensures x in cov && cov[x] == Cell(Flat(segs)[x - segs[0].start], tag)
  {
    var n := |segs| - 1;
    FlatAt(segs, tag, n);
    SatByte(Flat(segs), segs[n].bytes, segs[n].start - segs[0].start, x - segs[n].start);
    assert Within(segs[n], cov);
  }

  lemma {:induction false} RunCell(segs: seq<Slice>, tag: string, cov: Cover, x: nat)
    requires CoveredRun(segs, tag, cov) && segs[0].start <= x < segs[|segs| - 1].End()
    ensures segs[0].start + |Flat(segs)| == segs[|segs| - 1].End()
    ensures x in cov && cov[x] == Cell(Flat(segs)[x - segs[0].start], tag)
  {
    var n := |segs| - 1;
    RunLength(segs, tag);
    if segs[n].Spans(x) {
      BackCell(segs, tag, cov, x);
    } else {
      CoveredFront(segs, tag, cov);
      RunCell(segs[..n], tag, cov, x);
      assert Flat(segs)[x - segs[0].start] == Flat(segs[..n])[x - segs[0].start];
    }
  }

  /** Where emission stops: the end of the run or of the file. */
  function EmitEnd(segs: seq<Slice>, size: Option<nat>): nat
    requires segs != []
  {
    var end := segs[|segs| - 1].End();
    if size.Some? && size.value < end then size.value else end
  }

  /** The new entry at `at`: a block, or what is left before the end. */
  ghost function PieceAt(segs: seq<Slice>, tag: string, at: nat, len: nat): Slice
    requires segs != [] && segs[0].start <= at && at - segs[0].start + len <= |Flat(segs)|
  {
    Slice(at, Window(segs, at, len), tag)
  }

  lemma {:induction false} PieceWithin(cov: Cover, size: Option<nat>, segs: seq<Slice>, tag: string, at: nat, len: nat)
    requires RunOf(cov, segs, tag) && segs[0].start <= at && at + len <= EmitEnd(segs, size)
    ensures at + len - segs[0].start <= |Flat(segs)|
    ensures Within(PieceAt(segs, tag, at, len), Trim(cov, size))
  {
    RunLength(segs, tag);
    var e := PieceAt(segs, tag, at, len);
    forall x: nat | e.Spans(x) ensures x in Trim(cov, size) && Trim(cov, size)[x] == e.CellAt(x) {
      RunCell(segs, tag, cov, x);
      TrimKeeps(cov, size, x);
      assert Window(segs, at, len)[x - at] == Flat(segs)[x - segs[0].start];
    }
  }

  lemma TrimKeeps(cov: Cover, size: Option<nat>, x: nat)
    requires x in cov && (size.Some? ==> x < size.value)
    ensures x in Trim(cov, size) && Trim(cov, size)[x] == cov[x]
  {
  }

  /** The piece that a run yields at grid point `at`. */
  lemma {:induction false} RunPiece(cov: Cover, size: Option<nat>, segs: seq<Slice>, tag: string, block: nat, at: nat, len: nat)
    requires block > 0 && RunOf(cov, segs, tag) && OnGrid(at, block) && segs[0].start <= at < EmitEnd(segs, size)
    requires len == if block <= EmitEnd(segs, size) - at then block else EmitEnd(segs, size) - at
    ensures at + len - segs[0].start <= |Flat(segs)|
    ensures IsPiece(Trim(cov, size), block, PieceAt(segs, tag, at, len))
  {
    PieceWithin(cov, size, segs, tag, at, len);
    EndNotTagged(cov, size, segs, tag);
  }

  lemma {:induction false} EndNotTagged(cov: Cover, size: Option<nat>, segs: seq<Slice>, tag: string)
    requires RunOf(cov, segs, tag)
    ensures !TagIs(Trim(cov, size), EmitEnd(segs, size), tag)
  {
  }

  /** Pieces that start between two bounds. */
  ghost predicate Between(e: Slice, lo: nat, hi: nat) {
    lo <= e.start < hi
  }

  /** `out` grew by exactly the outputs that start in [lo, hi), in order. */
  ghost predicate Emitted(cov: Cover, block: nat, size: Option<nat>, pieces: seq<Slice>, lo: nat, hi: nat)
    requires block > 0
  {
    && Ascending(pieces)
    && (forall e :: e in pieces <==> IsOutput(cov, block, size, e) && Between(e, lo, hi))
  }

  lemma {:induction false} EmitOne(cov: Cover, block: nat, size: Option<nat>, pieces: seq<Slice>, lo: nat, at: nat, e: Slice)
    requires block > 0 && Emitted(cov, block, size, pieces, lo, at) && lo <= at
    requires IsOutput(cov, block, size, e) && e.start == at
    ensures Emitted(cov, block, size, pieces + [e], lo, at + block)
  {
    var all := pieces + [e];
    forall f | f in pieces ensures f.start < at {}
    forall f ensures f in all <==> IsOutput(cov, block, size, f) && Between(f, lo, at + block) {
      if IsOutput(cov, block, size, f) && Between(f, at, at + block) {
        OnlyGridPoint(at, f.start, block);
        PieceUnique(Trim(cov, size), block, e, f);
      }
    }
  }

  lemma {:induction false} EmitNone(cov: Cover, block: nat, size: Option<nat>, pieces: seq<Slice>, lo: nat, at: nat, hi: nat)
    requires block > 0 && Emitted(cov, block, size, pieces, lo, at) && lo <= at <= hi
    requires forall e :: IsOutput(cov, block, size, e) ==> !Between(e, at, hi)
    ensures Emitted(cov, block, size, pieces, lo, hi)
  {
  }

  lemma OnlyGridPoint(at: nat, x: nat, block: nat)
    requires block > 0 && OnGrid(at, block) && OnGrid(x, block) && at <= x < at + block
    ensures x == at
  {
    if at < x {
      GridPointsApart(at, x, block);
    }
  }

  lemma {:induction false} NothingBeforeFirst(cov: Cover, block: nat, size: Option<nat>, from: nat)
    requires block > 0
    ensures Emitted(cov, block, size, [], from, AlignUp(from, block))
  {
    forall e | IsOutput(cov, block, size, e) ensures !Between(e, from, AlignUp(from, block)) {
      if Between(e, from, AlignUp(from, block)) {
        GridPointsApart(e.start, AlignUp(from, block), block);
      }
    }
  }

  /** Nothing starts at or past a known file size. */
  lemma {:induction false} NothingPastEof(cov: Cover, block: nat, size: nat, e: Slice)
    requires block > 0 && IsOutput(cov, block, Some(size), e)
    ensures e.start < size
  {
    assert e.Spans(e.start);
  }

  lemma AlignUpNext(at: nat, len: nat, block: nat)
    requires block > 0 && OnGrid(at, block) && 0 < len <= block
    ensures AlignUp(at + len, block) == at + block && OnGrid(at + block, block)
  {
    NextOnGrid(at, block);
    GridPointsApart(at, AlignUp(at + len, block), block);
    if at + block < AlignUp(at + len, block) {
      GridPointsApart(at + block, AlignUp(at + len, block), block);
    }
  }

  /** Allocate a chunk, gather its bytes and label it with the run's tag. */
  method CutPiece(segs: seq<Slice>, tag: string, at: nat, len: nat) returns (e: Slice)
    requires IsRun(segs, tag) && segs != [] && segs[0].start <= at && at + len <= segs[|segs| - 1].End()
    ensures at + len - segs[0].start <= |Flat(segs)| && e == PieceAt(segs, tag, at, len)
  {
    var dest := new byte[len];
    CopyRange(segs, tag, 0, at, len, dest);
    e := Slice(at, dest[..], tag);
    assert dest[..] == dest[..len];
  }

  /** A run that stops short of a known end of file: only whole blocks are worth keeping. */
  method EmitWholeBlocks(segs: seq<Slice>, tag: string, block: nat, size: nat, ghost cov: Cover)
    returns (pieces: seq<Slice>)
    requires block > 0 && RunOf(cov, segs, tag) && segs[|segs| - 1].End() < size
    ensures Emitted(cov, block, Some(size), pieces, segs[0].start, segs[|segs| - 1].End())
  {
    var start, end := segs[0].start, segs[|segs| - 1].End();
    pieces := [];
    NothingBeforeFirst(cov, block, Some(size), start);
    var at := AlignUp(start, block);
    while at + block <= end
      invariant OnGrid(at, block) && start <= at
      invariant Emitted(cov, block, Some(size), pieces, start, at)
      invariant forall e :: e in pieces ==> e.start < end
      decreases end - at
    {
      RunPiece(cov, Some(size), segs, tag, block, at, block);
      var e := CutPiece(segs, tag, at, block);
      EmitOne(cov, block, Some(size), pieces, start, at, e);
      AlignUpNext(at, block, block);
      pieces := pieces + [e];
      at := at + block;
    }
    ShortTailDropped(cov, segs, tag, block, size, at, pieces);
  }

  /** The tail of such a run is neither a whole block nor at the end of the file. */
  lemma {:induction false} ShortTailDropped(
    cov: Cover, segs: seq<Slice>, tag: string, block: nat, size: nat, at: nat, pieces: seq<Slice>)
    requires block > 0 && RunOf(cov, segs, tag) && segs[|segs| - 1].End() < size
    requires OnGrid(at, block) && segs[0].start <= at && segs[|segs| - 1].End() < at + block
    requires Emitted(cov, block, Some(size), pieces, segs[0].start, at)
    requires forall e :: e in pieces ==> e.start < segs[|segs| - 1].End()
    ensures Emitted(cov, block, Some(size), pieces, segs[0].start, segs[|segs| - 1].End())
  {
    var end := segs[|segs| - 1].End();
    if at < end {
      forall e | IsOutput(cov, block, Some(size), e) ensures !Between(e, at, end) {
        if Between(e, at, end) {
          OnlyGridPoint(at, e.start, block);
          RunPiece(cov, Some(size), segs, tag, block, at, end - at);
          PieceUnique(Trim(cov, Some(size)), block, e, PieceAt(segs, tag, at, end - at));
        }
      }
      EmitNone(cov, block, Some(size), pieces, segs[0].start, at, end);
    }
  }

  /** Re-cut a run up to its end or the end of the file, keeping a short last piece. */
  method EmitToEnd(segs: seq<Slice>, tag: string, block: nat, size: Option<nat>, ghost cov: Cover)
    returns (pieces: seq<Slice>)
    requires block > 0 && RunOf(cov, segs, tag) && (size.Some? ==> size.value <= segs[|segs| - 1].End())
    ensures Emitted(cov, block, size, pieces, segs[0].start, segs[|segs| - 1].End())
  {
    var start, emitEnd := segs[0].start, EmitEnd(segs, size);
    pieces := [];
    NothingBeforeFirst(cov, block, size, start);
    var at := AlignUp(start, block);
    while at < emitEnd
      invariant OnGrid(at, block) && start <= at
      invariant Emitted(cov, block, size, pieces, start, at)
      invariant forall e :: e in pieces ==> e.start < emitEnd
      decreases if at < emitEnd then emitEnd - at else 0
    {
      var len := if block <= emitEnd - at then block else emitEnd - at;
      RunPiece(cov, size, segs, tag, block, at, len);
      var e := CutPiece(segs, tag, at, len);
      EmitOne(cov, block, size, pieces, start, at, e);
      AlignUpNext(at, len, block);
      pieces := pieces + [e];
      at := AlignUp(at + len, block);
    }
    EmittedToEnd(cov, segs, block, size, pieces, at);
  }

  lemma {:induction false} EmittedToEnd(
    cov: Cover, segs: seq<Slice>, block: nat, size: Option<nat>, pieces: seq<Slice>, at: nat)
    requires block > 0 && segs != [] && (size.Some? ==> size.value <= segs[|segs| - 1].End())
    requires EmitEnd(segs, size) <= at && Emitted(cov, block, size, pieces, segs[0].start, at)
    requires forall e :: e in pieces ==> e.start < EmitEnd(segs, size)
    ensures Emitted(cov, block, size, pieces, segs[0].start, segs[|segs| - 1].End())
  {
    if size.Some? {
      forall e | IsOutput(cov, block, size, e) ensures e.start < size.value {
        NothingPastEof(cov, block, size.value, e);
      }
    }
  }

  method EmitRunOnNewGrid(segs: seq<Slice>, tag: string, block: nat, size: Option<nat>, ghost cov: Cover)
    returns (pieces: seq<Slice>)
    requires block > 0 && RunOf(cov, segs, tag)
    ensures Emitted(cov, block, size, pieces, segs[0].start, segs[|segs| - 1].End())
  {
    if EmitEnd(segs, size) <= segs[0].start {
      pieces := [];
      RunLength(segs, tag);
      FlatAt(segs, tag, 0);
      EmittedToEnd(cov, segs, block, size, [], segs[0].start);
    } else if size.Some? && segs[|segs| - 1].End() < size.value {
      pieces := EmitWholeBlocks(segs, tag, block, size.value, cov);
    } else {
      pieces := EmitToEnd(segs, tag, block, size, cov);
    }
  }

  // One file.

  /** Strictly ascending starts: the iteration order of the per-file ordered map. */
  predicate InOrder(blocks: seq<Slice>) {
    forall i, j :: 0 <= i < j < |blocks| ==> blocks[i].start < blocks[j].start
  }

  /** The blocks a remap works with: empty ones and those starting inside an earlier kept block are passed over. */
  function Kept(blocks: seq<Slice>, end: nat): seq<Slice> {
    if blocks == [] then []
    else if blocks[0].bytes == [] || blocks[0].start < end then Kept(blocks[1..], end)
    else [blocks[0]] + Kept(blocks[1..], blocks[0].End())
  }

  /** A block is kept exactly when it is not empty and does not start before an earlier kept one ends. */
  lemma {:induction false} KeptIff(blocks: seq<Slice>, end: nat, b: Slice)
    requires InOrder(blocks) && b in blocks
    ensures b in Kept(blocks, end) <==>
            b.bytes != [] && end <= b.start &&
            forall k :: k in Kept(blocks, end) && k.start < b.start ==> k.End() <= b.start
  {
    var head, rest := blocks[0], blocks[1..];
    KeptFrom(rest, end);
    KeptFrom(rest, head.End());
    forall x | x in rest ensures head.start < x.start {
      assert x in rest;
    }
    if b in rest {
      KeptIff(rest, end, b);
      KeptIff(rest, head.End(), b);
    }
  }

  lemma {:induction false} KeptFrom(blocks: seq<Slice>, end: nat)
    ensures forall k :: k in Kept(blocks, end) ==> k in blocks
  {
    if blocks != [] {
      KeptFrom(blocks[1..], end);
      KeptFrom(blocks[1..], blocks[0].End());
    }
  }

  lemma {:induction false} KeptDisjoint(blocks: seq<Slice>, end: nat)
    ensures Disjoint(Kept(blocks, end))
    ensures Kept(blocks, end) != [] ==> end <= Kept(blocks, end)[0].start
  {
    if blocks != [] {
      if blocks[0].bytes == [] || blocks[0].start < end {
        KeptDisjoint(blocks[1..], end);
      } else {
        KeptDisjoint(blocks[1..], blocks[0].End());
        PrependDisjoint(blocks[0], Kept(blocks[1..], blocks[0].End()));
      }
    }
  }

  lemma PrependDisjoint(b: Slice, rest: seq<Slice>)
    requires b.bytes != [] && Disjoint(rest) && (rest != [] ==> b.End() <= rest[0].start)
    ensures Disjoint([b] + rest)
  {
    var all := [b] + rest;
    forall j | 1 <= j < |all| ensures b.End() <= all[j].start {
      if j > 1 {
        assert rest[0].End() <= rest[j - 1].start;
      }
    }
  }

  lemma DisjointTail(blocks: seq<Slice>)
    requires Disjoint(blocks) && blocks != []
    ensures Disjoint(blocks[1..]) && blocks[0].bytes != [] && (|blocks| > 1 ==> blocks[0].End() <= blocks[1..][0].start)
  {
    var rest := blocks[1..];
    forall i | 0 <= i < |rest| ensures rest[i] == blocks[i + 1] {
    }
  }

  /** Disjoint blocks are all kept. */
  lemma {:induction false} DisjointKeptWhole(blocks: seq<Slice>, end: nat)
    requires Disjoint(blocks) && (blocks != [] ==> end <= blocks[0].start)
    ensures Kept(blocks, end) == blocks
  {
    if blocks != [] {
      DisjointTail(blocks);
      DisjointKeptWhole(blocks[1..], blocks[0].End());
      assert [blocks[0]] + blocks[1..] == blocks;
    }
  }

  /** A stretch of kept blocks ending at a gap or a tag change is a run of the cover. */
  lemma {:induction false} RunIsMaximal(kept: seq<Slice>, m: nat, n: nat, tag: string)
    requires Disjoint(kept) && m < n <= |kept| && IsRun(kept[m..n], tag)
    requires n < |kept| ==> kept[n - 1].End() < kept[n].start || kept[n].tag != tag
    ensures RunOf(CoverOf(kept), kept[m..n], tag)
  {
    var segs, cov := kept[m..n], CoverOf(kept);
    forall i | 0 <= i < |segs| ensures Within(segs[i], cov) {
      CoverAgrees(kept, m + i);
    }
    var end := kept[n - 1].End();
    CoverDomain(kept, end);
    if end in cov {
      var j :| 0 <= j < |kept| && kept[j].Spans(end);
      assert j >= n;
      assert j == n;
      CoverAgrees(kept, n);
    }
  }

  lemma {:induction false} EmittedConcat(
    cov: Cover, block: nat, size: Option<nat>, a: seq<Slice>, b: seq<Slice>, mid: nat, hi: nat)
    requires block > 0 && mid <= hi && Emitted(cov, block, size, a, 0, mid) && Emitted(cov, block, size, b, mid, hi)
    ensures Emitted(cov, block, size, a + b, 0, hi)
  {
    var all := a + b;
    forall i, j | 0 <= i < j < |all| ensures all[i].start < all[j].start {
      if i < |a| <= j {
        assert a[i] in a && b[j - |a|] in b;
        assert Between(a[i], 0, mid) && Between(b[j - |a|], mid, hi);
      }
    }
  }

  /** Nothing starts between two kept blocks, before the first or after the last. */
  lemma {:induction false} NoneInGap(
    kept: seq<Slice>, n: nat, block: nat, size: Option<nat>, out: seq<Slice>, hi: nat)
    requires block > 0 && Disjoint(kept) && n <= |kept| && (n < |kept| ==> hi == kept[n].start)
    requires var lo := if n == 0 then 0 else kept[n - 1].End();
             lo <= hi && Emitted(CoverOf(kept), block, size, out, 0, lo)
    ensures Emitted(CoverOf(kept), block, size, out, 0, hi)
  {
    var lo := if n == 0 then 0 else kept[n - 1].End();
    forall e | IsOutput(CoverOf(kept), block, size, e) ensures !Between(e, lo, hi) {
      if Between(e, lo, hi) {
        StartIsSpanned(kept, block, size, e);
        var j :| 0 <= j < |kept| && kept[j].Spans(e.start);
        NotInGap(kept, n, j, e.start);
      }
    }
    EmitNone(CoverOf(kept), block, size, out, 0, lo, hi);
  }

  lemma {:induction false} StartIsSpanned(kept: seq<Slice>, block: nat, size: Option<nat>, e: Slice)
    requires block > 0 && IsOutput(CoverOf(kept), block, size, e)
    ensures Spanned(kept, e.start)
  {
    assert e.Spans(e.start);
    CoverDomain(kept, e.start);
  }

  lemma NotInGap(kept: seq<Slice>, n: nat, j: nat, x: nat)
    requires Disjoint(kept) && n <= |kept| && j < |kept| && kept[j].Spans(x)
    ensures (n > 0 && x < kept[n - 1].End()) || (n < |kept| && kept[n].start <= x)
  {
  }

  /** Everything that can be emitted starts before the last kept block ends. */
  lemma {:induction false} AllEmitted(kept: seq<Slice>, block: nat, size: Option<nat>, out: seq<Slice>)
    requires block > 0 && Disjoint(kept)
    requires Emitted(CoverOf(kept), block, size, out, 0, if kept == [] then 0 else kept[|kept| - 1].End())
    ensures IsRemap(CoverOf(kept), block, size, out)
  {
    forall e | IsOutput(CoverOf(kept), block, size, e)
      ensures kept != [] && Between(e, 0, kept[|kept| - 1].End())
    {
      StartIsSpanned(kept, block, size, e);
    }
  }

  lemma {:induction false} KeptNext(blocks: seq<Slice>, i: nat, end: nat)
    requires i < |blocks|
    ensures Kept(blocks[i..], end) ==
            if blocks[i].bytes == [] || blocks[i].start < end then Kept(blocks[i + 1..], end)
            else [blocks[i]] + Kept(blocks[i + 1..], blocks[i].End())
  {
    assert blocks[i..][1..] == blocks[i + 1..];
  }

  /** The next block the loop accepts is the next kept one. */
  lemma {:induction false} Accepted(kept: seq<Slice>, n: nat, blocks: seq<Slice>, i: nat, end: nat)
    requires n <= |kept| && i < |blocks| && kept[n..] == Kept(blocks[i..], end)
    requires blocks[i].bytes != [] && end <= blocks[i].start
    ensures n < |kept| && kept[n] == blocks[i] && kept[n + 1..] == Kept(blocks[i + 1..], blocks[i].End())
  {
    KeptNext(blocks, i, end);
    assert kept[n..][1..] == kept[n + 1..];
  }

  /** The loop's current run: kept blocks m up to n, under one tag, ending at `end`. */
  ghost predicate InRun(kept: seq<Slice>, m: nat, n: nat, segs: seq<Slice>, tag: string, end: nat) {
    m < n <= |kept| && segs == kept[m..n] && IsRun(segs, tag) && end == kept[n - 1].End()
  }

  lemma RunGrows(kept: seq<Slice>, m: nat, n: nat, segs: seq<Slice>, tag: string, end: nat, b: Slice)
    requires InRun(kept, m, n, segs, tag, end) && n < |kept| && kept[n] == b
    requires b.start == end && b.tag == tag && b.bytes != []
    ensures InRun(kept, m, n + 1, segs + [b], tag, b.End())
  {
    assert kept[m..n + 1] == kept[m..n] + [b];
  }

  lemma RunBegins(kept: seq<Slice>, n: nat, b: Slice)
    requires n < |kept| && kept[n] == b && b.bytes != []
    ensures InRun(kept, n, n + 1, [b], b.tag, b.End())
  {
    assert kept[n..n + 1] == [b];
  }

  /** Flush the current run of kept blocks and move on to the next kept block, or to the end. */
  method FlushRun(ghost kept: seq<Slice>, ghost m: nat, ghost n: nat, segs: seq<Slice>, tag: string, block: nat,
                  size: Option<nat>, out: seq<Slice>) returns (out': seq<Slice>)
    requires block > 0 && Disjoint(kept) && m < n <= |kept| && InRun(kept, m, n, segs, tag, kept[n - 1].End())
    requires n < |kept| ==> kept[n - 1].End() < kept[n].start || kept[n].tag != tag
    requires Emitted(CoverOf(kept), block, size, out, 0, kept[m].start)
    ensures Emitted(CoverOf(kept), block, size, out', 0, if n < |kept| then kept[n].start else kept[n - 1].End())
  {
    RunIsMaximal(kept, m, n, tag);
    var pieces := EmitRunOnNewGrid(segs, tag, block, size, CoverOf(kept));
    assert kept[m].start <= kept[n - 1].End();
    EmittedConcat(CoverOf(kept), block, size, out, pieces, kept[m].start, kept[n - 1].End());
    out' := out + pieces;
    NoneInGap(kept, n, block, size, out', if n < |kept| then kept[n].start else kept[n - 1].End());
  }

  /** Take in the next kept block: extend the run, or flush it and begin another. */
  method AcceptBlock(ghost kept: seq<Slice>, ghost m: nat, ghost n: nat, segs: seq<Slice>, end: nat, tag: string,
                     inRun: bool, b: Slice, block: nat, size: Option<nat>, out: seq<Slice>)
    returns (ghost m': nat, segs': seq<Slice>, tag': string, out': seq<Slice>)
    requires block > 0 && Disjoint(kept) && n < |kept| && kept[n] == b && end <= b.start
    requires if inRun then InRun(kept, m, n, segs, tag, end) else n == 0
    requires Emitted(CoverOf(kept), block, size, out, 0, if inRun then kept[m].start else 0)
    ensures InRun(kept, m', n + 1, segs', tag', b.End())
    ensures Emitted(CoverOf(kept), block, size, out', 0, kept[m'].start)
  {
    if inRun && b.start == end && b.tag == tag {
      RunGrows(kept, m, n, segs, tag, end, b);
      return m, segs + [b], tag, out;
    }
    out' := out;
    if inRun {
      out' := FlushRun(kept, m, n, segs, tag, block, size, out);
    } else {
      NoneInGap(kept, 0, block, size, out, b.start);
    }
    RunBegins(kept, n, b);
    m', segs', tag' := n, [b], b.tag;
  }

  /** The scan's progress: `n` kept blocks seen, those of the current run not yet emitted past `upTo`. */
  ghost predicate Scanning(kept: seq<Slice>, blocks: seq<Slice>, i: nat, m: nat, n: nat, segs: seq<Slice>, tag: string,
                           end: nat, inRun: bool, upTo: nat)
    requires i <= |blocks|
  {
    && n <= |kept| && kept[n..] == Kept(blocks[i..], end)
    && if inRun then InRun(kept, m, n, segs, tag, end) && upTo == kept[m].start else n == 0 && end == 0 && upTo == 0
  }

  lemma ScanStarts(blocks: seq<Slice>)
    ensures Scanning(Kept(blocks, 0), blocks, 0, 0, 0, [], "", 0, false, 0)
  {
    assert blocks[0..] == blocks && Kept(blocks, 0)[0..] == Kept(blocks, 0);
  }

  lemma ScanSkips(kept: seq<Slice>, blocks: seq<Slice>, i: nat, m: nat, n: nat, segs: seq<Slice>, tag: string,
                  end: nat, inRun: bool, upTo: nat)
    requires i < |blocks| && Scanning(kept, blocks, i, m, n, segs, tag, end, inRun, upTo)
    requires blocks[i].bytes == [] || blocks[i].start < end
    ensures Scanning(kept, blocks, i + 1, m, n, segs, tag, end, inRun, upTo)
  {
    KeptNext(blocks, i, end);
  }

  lemma ScanAccepts(kept: seq<Slice>, blocks: seq<Slice>, i: nat, m: nat, n: nat, segs: seq<Slice>, tag: string,
                    end: nat, inRun: bool, upTo: nat)
    requires i < |blocks| && Scanning(kept, blocks, i, m, n, segs, tag, end, inRun, upTo)
    requires blocks[i].bytes != [] && end <= blocks[i].start
    ensures n < |kept| && kept[n] == blocks[i] && kept[n + 1..] == Kept(blocks[i + 1..], blocks[i].End())
  {
    Accepted(kept, n, blocks, i, end);
  }

  lemma ScanEnds(kept: seq<Slice>, blocks: seq<Slice>, m: nat, n: nat, segs: seq<Slice>, tag: string,
                 end: nat, inRun: bool, upTo: nat)
    requires Scanning(kept, blocks, |blocks|, m, n, segs, tag, end, inRun, upTo)
    ensures n == |kept| && (!inRun ==> kept == [])
  {
    assert blocks[|blocks|..] == [];
    assert |kept[n..]| == 0;
  }

  method RemapOneFile(blocks: seq<Slice>, block: nat, size: Option<nat>) returns (out: seq<Slice>)
    requires block > 0 && InOrder(blocks)
    ensures IsRemap(CoverOf(Kept(blocks, 0)), block, size, out)
  {
    ghost var kept := Kept(blocks, 0);
    KeptDisjoint(blocks, 0);
    ghost var m: nat, n: nat, upTo: nat := 0, 0, 0;
    var segs: seq<Slice>, end: nat, tag, inRun := [], 0, "", false;
    out := [];
    ScanStarts(blocks);
    for i := 0 to |blocks|
      invariant Scanning(kept, blocks, i, m, n, segs, tag, end, inRun, upTo)
      invariant Emitted(CoverOf(kept), block, size, out, 0, upTo)
    {
      var b := blocks[i];
      if b.bytes == [] || (inRun && b.start < end) {
        ScanSkips(kept, blocks, i, m, n, segs, tag, end, inRun, upTo);
        continue;
      }
      ScanAccepts(kept, blocks, i, m, n, segs, tag, end, inRun, upTo);
      m, segs, tag, out := AcceptBlock(kept, m, n, segs, end, tag, inRun, b, block, size, out);
      inRun, end, n, upTo := true, b.End(), n + 1, kept[m].start;
    }
    ScanEnds(kept, blocks, m, n, segs, tag, end, inRun, upTo);
    if inRun {
      out := FlushRun(kept, m, n, segs, tag, block, size, out);
    }
    AllEmitted(kept, block, size, out);
  }
}
