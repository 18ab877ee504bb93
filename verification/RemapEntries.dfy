/** The remap of a whole drained cache: index by file, remap each file, and the round trip over all of them. */
module RemapEntries {
  import opened Blocks
  import opened Grid
  import opened Sequences
  import opened RemapSpec
  import opened Remap
  import opened RemapRoundTrip

  type Entry = (Block, CacheEntry)

  function SliceOf(e: Entry): Slice {
    Slice(e.0.start, e.1.bytes, e.1.tag)
  }

  function EntryOf(fname: string, s: Slice): Entry {
    (Block(fname, s.start, |s.bytes|), CacheEntry(s.bytes, s.tag))
  }

  /** What every cached entry satisfies: it is not empty and as long as its key says. */
  predicate Sized(e: Entry) {
    e.1.bytes != [] && |e.1.bytes| == e.0.size
  }

  /** Ordered-map insertion: the first entry for a start offset wins. */
  function Emplace(blocks: seq<Slice>, s: Slice): seq<Slice> {
    if blocks == [] || s.start < blocks[0].start then [s] + blocks
    else if s.start == blocks[0].start then blocks
    else [blocks[0]] + Emplace(blocks[1..], s)
  }

  lemma {:induction false} EmplaceMembers(blocks: seq<Slice>, s: Slice)
    requires InOrder(blocks)
    ensures InOrder(Emplace(blocks, s))
    ensures forall x :: x in Emplace(blocks, s) ==> x in blocks || x == s
    ensures forall x :: x in blocks ==> x in Emplace(blocks, s)
    ensures (forall x :: x in blocks ==> x.start != s.start) ==> s in Emplace(blocks, s)
  {
    if blocks != [] && blocks[0].start < s.start {
      EmplaceMembers(blocks[1..], s);
      var r := Emplace(blocks[1..], s);
      forall x | x in r ensures blocks[0].start < x.start {
        assert x in blocks[1..] || x == s;
      }
    }
  }

  /** The blocks of one file, in start order. */
  function FileBlocks(taken: seq<Entry>, fname: string): seq<Slice> {
    if taken == [] then []
    else
      var rest, last := FileBlocks(taken[..|taken| - 1], fname), taken[|taken| - 1];
      if last.0.fname == fname then Emplace(rest, SliceOf(last)) else rest
  }

  lemma {:induction false} FileBlocksFrom(taken: seq<Entry>, fname: string)
    requires forall e :: e in taken ==> Sized(e)
    ensures InOrder(FileBlocks(taken, fname))
    ensures forall s :: s in FileBlocks(taken, fname) ==> EntryOf(fname, s) in taken && s.bytes != []
  {
    if taken != [] {
      var n := |taken| - 1;
      FileBlocksFrom(taken[..n], fname);
      EmplaceMembers(FileBlocks(taken[..n], fname), SliceOf(taken[n]));
      assert Sized(taken[n]);
    }
  }

  /** One entry per file and start. */
  predicate OnePerStart(taken: seq<Entry>) {
    forall i, j :: 0 <= i < j < |taken| ==> taken[i].0.fname != taken[j].0.fname || taken[i].0.start != taken[j].0.start
  }

  lemma {:induction false} FileBlocksAll(taken: seq<Entry>, fname: string, e: Entry)
    requires (forall x :: x in taken ==> Sized(x)) && OnePerStart(taken) && e in taken && e.0.fname == fname
    ensures SliceOf(e) in FileBlocks(taken, fname)
  {
    var n := |taken| - 1;
    var rest := taken[..n];
    FileBlocksFrom(rest, fname);
    EmplaceMembers(FileBlocks(rest, fname), SliceOf(taken[n]));
    if e == taken[n] {
      forall x | x in FileBlocks(rest, fname) ensures x.start != e.0.start {
        var i :| 0 <= i < n && rest[i] == EntryOf(fname, x);
        assert taken[i].0.fname == fname;
      }
    } else {
      assert e in rest;
      FileBlocksAll(rest, fname, e);
    }
  }

  ghost function FileCover(taken: seq<Entry>, fname: string): Cover {
    CoverOf(Kept(FileBlocks(taken, fname), 0))
  }

  function SizeOf(sizes: map<string, nat>, fname: string): Option<nat> {
    if fname in sizes then Some(sizes[fname]) else None
  }

  /** The output holds exactly the re-cut entries of every file. */
  ghost predicate IsRemapOf(taken: seq<Entry>, block: nat, sizes: map<string, nat>, out: seq<Entry>)
    requires block > 0
  {
    OnePerStart(out) &&
    forall e :: e in out <==>
      |e.1.bytes| == e.0.size &&
      IsOutput(FileCover(taken, e.0.fname), block, SizeOf(sizes, e.0.fname), SliceOf(e))
  }

  /** Group the drained entries by file; each file's blocks end up in start order. */
  method BuildFileIndex(taken: seq<Entry>) returns (byFile: map<string, seq<Slice>>)
    requires forall e :: e in taken ==> Sized(e)
    ensures forall f :: f in byFile ==> byFile[f] == FileBlocks(taken, f)
    ensures forall f :: f !in byFile ==> FileBlocks(taken, f) == []
  {
    byFile := map[];
    for i := 0 to |taken|
      invariant forall f :: f in byFile ==> byFile[f] == FileBlocks(taken[..i], f)
      invariant forall f :: f !in byFile ==> FileBlocks(taken[..i], f) == []
    {
      var f := taken[i].0.fname;
      assert Sized(taken[i]);
      var blocks := if f in byFile then byFile[f] else [];
      assert taken[..i + 1][..i] == taken[..i];
      byFile := byFile[f := Emplace(blocks, SliceOf(taken[i]))];
    }
    assert taken[..|taken|] == taken;
  }

  /** The entries that the files of `done` contribute. */
  ghost predicate RemappedFiles(
    taken: seq<Entry>, block: nat, sizes: map<string, nat>, out: seq<Entry>, done: set<string>)
    requires block > 0
  {
    OnePerStart(out) &&
    forall e :: e in out <==>
      e.0.fname in done && |e.1.bytes| == e.0.size &&
      IsOutput(FileCover(taken, e.0.fname), block, SizeOf(sizes, e.0.fname), SliceOf(e))
  }

  function Entries(fname: string, out: seq<Slice>): (r: seq<Entry>)
    ensures |r| == |out| && forall i :: 0 <= i < |out| ==> r[i] == EntryOf(fname, out[i])
  {
    seq(|out|, i requires 0 <= i < |out| => EntryOf(fname, out[i]))
  }

  lemma {:induction false} OneMoreFile(taken: seq<Entry>, block: nat, sizes: map<string, nat>, out: seq<Entry>,
                                       done: set<string>, f: string, pieces: seq<Slice>)
    requires block > 0 && RemappedFiles(taken, block, sizes, out, done) && f !in done
    requires IsRemap(FileCover(taken, f), block, SizeOf(sizes, f), pieces)
    ensures RemappedFiles(taken, block, sizes, out + Entries(f, pieces), done + {f})
  {
    var more := Entries(f, pieces);
    forall e ensures e in more <==> e.0.fname == f && |e.1.bytes| == e.0.size && SliceOf(e) in pieces {
      if e in more {
        var i :| 0 <= i < |more| && more[i] == e;
        assert SliceOf(e) == pieces[i];
      }
      if e.0.fname == f && |e.1.bytes| == e.0.size && SliceOf(e) in pieces {
        var i :| 0 <= i < |pieces| && pieces[i] == SliceOf(e);
        assert more[i] == e;
      }
    }
    forall i, j | 0 <= i < j < |out + more|
      ensures (out + more)[i].0.fname != (out + more)[j].0.fname || (out + more)[i].0.start != (out + more)[j].0.start
    {
      if i < |out| <= j {
        assert out[i] in out && more[j - |out|] in more;
      }
    }
  }

  lemma {:induction false} NoBlocksNoOutput(block: nat, size: Option<nat>, e: Slice)
    requires block > 0
    ensures !IsOutput(CoverOf([]), block, size, e)
  {
    if IsOutput(CoverOf([]), block, size, e) {
      StartIsSpanned([], block, size, e);
    }
  }

  method RemapInMemCacheEntries(taken: seq<Entry>, block: nat, sizes: map<string, nat>) returns (out: seq<Entry>)
    requires forall e :: e in taken ==> Sized(e)
    ensures block == 0 ==> out == []
    ensures block > 0 ==> IsRemapOf(taken, block, sizes, out)
  {
    out := [];
    if block == 0 {
      return;
    }
    var byFile := BuildFileIndex(taken);
    var left := byFile.Keys;
    ghost var done := {};
    while left != {}
      invariant left + done == byFile.Keys && left !! done
      invariant RemappedFiles(taken, block, sizes, out, done)
      decreases |left|
    {
      var f :| f in left;
      FileBlocksFrom(taken, f);
      var pieces := RemapOneFile(byFile[f], block, SizeOf(sizes, f));
      OneMoreFile(taken, block, sizes, out, done, f, pieces);
      out := out + Entries(f, pieces);
      left, done := left - {f}, done + {f};
    }
    forall e: Entry | |e.1.bytes| == e.0.size && e.0.fname !in done
      ensures !IsOutput(FileCover(taken, e.0.fname), block, SizeOf(sizes, e.0.fname), SliceOf(e))
    {
      NoBlocksNoOutput(block, SizeOf(sizes, e.0.fname), SliceOf(e));
    }
  }

  // Consequences for the whole cache.

  /** Soundness: each output byte was cached for that file and offset, under the output's tag. */
  lemma {:induction false} OutputByteWasCached(
    taken: seq<Entry>, block: nat, sizes: map<string, nat>, out: seq<Entry>, e: Entry, x: nat) returns (t: Entry)
    requires block > 0 && (forall y :: y in taken ==> Sized(y)) && IsRemapOf(taken, block, sizes, out)
    requires e in out && SliceOf(e).Spans(x)
    ensures t in taken && t.0.fname == e.0.fname && SliceOf(t).Spans(x) && SliceOf(t).CellAt(x) == SliceOf(e).CellAt(x)
  {
    var f := e.0.fname;
    var blocks := FileBlocks(taken, f);
    var kept := Kept(blocks, 0);
    KeptDisjoint(blocks, 0);
    FileBlocksFrom(taken, f);
    assert x in Trim(CoverOf(kept), SizeOf(sizes, f));
    CoverDomain(kept, x);
    var i :| 0 <= i < |kept| && kept[i].Spans(x);
    CoverAgrees(kept, i);
    KeptFrom(blocks, 0);
    assert kept[i] in kept;
    t := EntryOf(f, kept[i]);
    assert SliceOf(t) == kept[i];
  }

  /** Completeness: disjoint cached ranges that cover a new-grid block under one tag yield that block whole. */
  lemma {:induction false} CachedBlockIsKept(
    taken: seq<Entry>, block: nat, sizes: map<string, nat>, out: seq<Entry>, fname: string, at: nat, tag: string)
    requires block > 0 && IsRemapOf(taken, block, sizes, out) && Disjoint(FileBlocks(taken, fname))
    requires OnGrid(at, block) && SameTag(CoverOf(FileBlocks(taken, fname)), at, at + block, tag)
    requires fname in sizes ==> at + block <= sizes[fname]
    ensures EntryOf(fname, Slice(at, BytesOf(CoverOf(FileBlocks(taken, fname)), at, at + block, tag), tag)) in out
  {
    var cov := CoverOf(FileBlocks(taken, fname));
    DisjointKeptWhole(FileBlocks(taken, fname), 0);
    FullBlockIsOutput(cov, block, SizeOf(sizes, fname), at, tag);
    var s := Slice(at, BytesOf(cov, at, at + block, tag), tag);
    assert SliceOf(EntryOf(fname, s)) == s;
  }

  /** Completeness at a known end of file: the short last block is kept when its bytes are all cached. */
  lemma {:induction false} CachedLastBlockIsKept(
    taken: seq<Entry>, block: nat, sizes: map<string, nat>, out: seq<Entry>, fname: string, at: nat, tag: string)
    requires block > 0 && IsRemapOf(taken, block, sizes, out) && Disjoint(FileBlocks(taken, fname))
    requires fname in sizes && OnGrid(at, block) && at < sizes[fname] < at + block
    requires SameTag(CoverOf(FileBlocks(taken, fname)), at, sizes[fname], tag)
    ensures EntryOf(fname, Slice(at, BytesOf(CoverOf(FileBlocks(taken, fname)), at, sizes[fname], tag), tag)) in out
  {
    var cov := CoverOf(FileBlocks(taken, fname));
    DisjointKeptWhole(FileBlocks(taken, fname), 0);
    LastBlockIsOutput(cov, block, sizes[fname], at, tag);
    var s := Slice(at, BytesOf(cov, at, sizes[fname], tag), tag);
    assert SliceOf(EntryOf(fname, s)) == s;
  }

  /** The drained entries of a file never overlap. */
  predicate DisjointEntries(taken: seq<Entry>) {
    forall i, j :: 0 <= i < j < |taken| && taken[i].0.fname == taken[j].0.fname ==>
      SliceOf(taken[i]).End() <= taken[j].0.start || SliceOf(taken[j]).End() <= taken[i].0.start
  }

  lemma {:induction false} DisjointInputs(taken: seq<Entry>, fname: string)
    requires (forall e :: e in taken ==> Sized(e)) && DisjointEntries(taken)
    ensures OnePerStart(taken) && Disjoint(FileBlocks(taken, fname))
  {
    forall i, j | 0 <= i < j < |taken|
      ensures taken[i].0.fname != taken[j].0.fname || taken[i].0.start != taken[j].0.start
    {
      assert Sized(taken[i]) && Sized(taken[j]);
    }
    var blocks := FileBlocks(taken, fname);
    FileBlocksFrom(taken, fname);
    forall i, j | 0 <= i < j < |blocks| ensures blocks[i].End() <= blocks[j].start {
      assert blocks[i] in blocks && blocks[j] in blocks;
      var a :| 0 <= a < |taken| && taken[a] == EntryOf(fname, blocks[i]);
      var b :| 0 <= b < |taken| && taken[b] == EntryOf(fname, blocks[j]);
      assert SliceOf(taken[a]) == blocks[i] && SliceOf(taken[b]) == blocks[j];
      assert a < b || b < a;
    }
    forall i | 0 <= i < |blocks| ensures blocks[i].bytes != [] {
      assert blocks[i] in blocks;
    }
  }

  /** Some drained entry of the file holds that byte under that tag. */
  predicate CachedAt(taken: seq<Entry>, fname: string, x: nat, tag: string) {
    exists t :: t in taken && t.0.fname == fname && t.1.tag == tag && SliceOf(t).Spans(x)
  }

  lemma {:induction false} CachedIsCovered(taken: seq<Entry>, fname: string, from: nat, to: nat, tag: string)
    requires (forall e :: e in taken ==> Sized(e)) && DisjointEntries(taken)
    requires forall x :: from <= x < to ==> CachedAt(taken, fname, x, tag)
    ensures SameTag(CoverOf(FileBlocks(taken, fname)), from, to, tag)
  {
    var blocks := FileBlocks(taken, fname);
    DisjointInputs(taken, fname);
    forall x: nat | from <= x < to ensures TagIs(CoverOf(blocks), x, tag) {
      assert CachedAt(taken, fname, x, tag);
      var t :| t in taken && t.0.fname == fname && t.1.tag == tag && SliceOf(t).Spans(x);
      FileBlocksAll(taken, fname, t);
      var i :| 0 <= i < |blocks| && blocks[i] == SliceOf(t);
      CoverAgrees(blocks, i);
    }
  }

  /**
    Completeness, in terms of the drained entries alone: a new-grid block whose every byte some
    entry holds under one tag comes out whole, and so does the short block at a known end of file.
   */
  lemma {:induction false} CachedBytesComeOut(
    taken: seq<Entry>, block: nat, sizes: map<string, nat>, out: seq<Entry>, fname: string, at: nat, len: nat,
    tag: string) returns (e: Entry)
    requires block > 0 && (forall t :: t in taken ==> Sized(t)) && DisjointEntries(taken)
    requires IsRemapOf(taken, block, sizes, out) && OnGrid(at, block)
    requires forall x :: at <= x < at + len ==> CachedAt(taken, fname, x, tag)
    requires || (len == block && (fname in sizes ==> at + len <= sizes[fname]))
             || (0 < len < block && fname in sizes && at + len == sizes[fname])
    ensures e in out && e.0 == Block(fname, at, len) && e.1.tag == tag
  {
    var cov := CoverOf(FileBlocks(taken, fname));
    DisjointInputs(taken, fname);
    CachedIsCovered(taken, fname, at, at + len, tag);
    if len == block {
      CachedBlockIsKept(taken, block, sizes, out, fname, at, tag);
    } else {
      CachedLastBlockIsKept(taken, block, sizes, out, fname, at, tag);
    }
    e := EntryOf(fname, Slice(at, BytesOf(cov, at, at + len, tag), tag));
  }

  lemma {:induction false} CoveredIsCached(taken: seq<Entry>, fname: string, from: nat, to: nat, tag: string)
    requires (forall e :: e in taken ==> Sized(e)) && SameTag(CoverOf(FileBlocks(taken, fname)), from, to, tag)
    requires DisjointEntries(taken)
    ensures forall x :: from <= x < to ==> CachedAt(taken, fname, x, tag)
  {
    var blocks := FileBlocks(taken, fname);
    DisjointInputs(taken, fname);
    FileBlocksFrom(taken, fname);
    forall x: nat | from <= x < to ensures CachedAt(taken, fname, x, tag) {
      assert TagIs(CoverOf(blocks), x, tag);
      CoverDomain(blocks, x);
      var i :| 0 <= i < |blocks| && blocks[i].Spans(x);
      CoverAgrees(blocks, i);
      assert blocks[i] in blocks;
      var t := EntryOf(fname, blocks[i]);
      assert SliceOf(t) == blocks[i] && t in taken;
    }
  }

  /** Some output of the file holds that byte under that tag. */
  predicate ComesOut(out: seq<Entry>, fname: string, x: nat, tag: string) {
    exists e :: e in out && e.0.fname == fname && e.1.tag == tag && SliceOf(e).Spans(x)
  }

  /** How far the bytes must be cached under one tag, from the start of their new-grid block, for byte `x` to survive. */
  function NeededTo(x: nat, block: nat, size: Option<nat>): nat
    requires block > 0
  {
    var at := FloorTo(x, block);
    if size.None? then x + 1 else if at + block <= size.value then at + block else size.value
  }

  /**
    Which bytes survive, for disjoint drained entries: without a known file size, those whose new-grid
    block is cached up to them under one tag; with one, those inside the file whose block is cached whole,
    or up to the end of the file.
   */
  lemma {:induction false} ByteComesOutIff(
    taken: seq<Entry>, block: nat, sizes: map<string, nat>, out: seq<Entry>, fname: string, x: nat, tag: string)
    requires block > 0 && (forall t :: t in taken ==> Sized(t)) && DisjointEntries(taken)
    requires IsRemapOf(taken, block, sizes, out)
    ensures ComesOut(out, fname, x, tag) <==>
            && (fname in sizes ==> x < sizes[fname])
            && forall y :: FloorTo(x, block) <= y < NeededTo(x, block, SizeOf(sizes, fname)) ==>
                 CachedAt(taken, fname, y, tag)
  {
    if ComesOut(out, fname, x, tag) {
      ComesOutNeeds(taken, block, sizes, out, fname, x, tag);
    }
    if (fname in sizes ==> x < sizes[fname]) &&
       forall y :: FloorTo(x, block) <= y < NeededTo(x, block, SizeOf(sizes, fname)) ==> CachedAt(taken, fname, y, tag) {
      NeededComesOut(taken, block, sizes, out, fname, x, tag);
    }
  }

  lemma {:induction false} ComesOutNeeds(
    taken: seq<Entry>, block: nat, sizes: map<string, nat>, out: seq<Entry>, fname: string, x: nat, tag: string)
    requires block > 0 && (forall t :: t in taken ==> Sized(t)) && DisjointEntries(taken)
    requires IsRemapOf(taken, block, sizes, out) && ComesOut(out, fname, x, tag)
    ensures fname in sizes ==> x < sizes[fname]
    ensures forall y :: FloorTo(x, block) <= y < NeededTo(x, block, SizeOf(sizes, fname)) ==> CachedAt(taken, fname, y, tag)
  {
    var cov, size := CoverOf(FileBlocks(taken, fname)), SizeOf(sizes, fname);
    DisjointInputs(taken, fname);
    DisjointKeptWhole(FileBlocks(taken, fname), 0);
    var e :| e in out && e.0.fname == fname && e.1.tag == tag && SliceOf(e).Spans(x);
    OutputNeeds(cov, block, size, SliceOf(e), x);
    CoveredIsCached(taken, fname, FloorTo(x, block), NeededTo(x, block, size), tag);
  }

  lemma {:induction false} NeededComesOut(
    taken: seq<Entry>, block: nat, sizes: map<string, nat>, out: seq<Entry>, fname: string, x: nat, tag: string)
    requires block > 0 && (forall t :: t in taken ==> Sized(t)) && DisjointEntries(taken)
    requires IsRemapOf(taken, block, sizes, out) && (fname in sizes ==> x < sizes[fname])
    requires forall y :: FloorTo(x, block) <= y < NeededTo(x, block, SizeOf(sizes, fname)) ==> CachedAt(taken, fname, y, tag)
    ensures ComesOut(out, fname, x, tag)
  {
    var cov, size := CoverOf(FileBlocks(taken, fname)), SizeOf(sizes, fname);
    DisjointInputs(taken, fname);
    DisjointKeptWhole(FileBlocks(taken, fname), 0);
    CachedIsCovered(taken, fname, FloorTo(x, block), NeededTo(x, block, size), tag);
    var s := NeededGives(cov, block, size, x, tag);
    var e := EntryOf(fname, s);
    assert SliceOf(e) == s;
    assert e in out;
  }

  /** An output around `x` needs the bytes of its block. */
  lemma OutputNeeds(cov: Cover, block: nat, size: Option<nat>, e: Slice, x: nat)
    requires block > 0 && IsOutput(cov, block, size, e) && e.Spans(x)
    ensures size.Some? ==> x < size.value
    ensures SameTag(cov, FloorTo(x, block), NeededTo(x, block, size), e.tag)
  {
    SameGridPoint(e.start, FloorTo(x, block), x, block);
    NeedsItsBlock(cov, size, e);
    assert e.Spans(e.End() - 1);
    assert NeededTo(x, block, size) <= e.End();
    forall y: nat | e.start <= y < NeededTo(x, block, size) ensures TagIs(cov, y, e.tag) {
      assert TagIs(cov, y, e.tag);
    }
  }

  /** Two grid points at or before `x`, both less than a block away, are one. */
  lemma SameGridPoint(a: nat, b: nat, x: nat, block: nat)
    requires block > 0 && OnGrid(a, block) && OnGrid(b, block) && a <= x < a + block && b <= x < b + block
    ensures a == b
  {
    if a < b {
      GridPointsApart(a, b, block);
    } else if b < a {
      GridPointsApart(b, a, block);
    }
  }

  lemma NeedsItsBlock(cov: Cover, size: Option<nat>, e: Slice)
    requires Within(e, Trim(cov, size))
    ensures SameTag(cov, e.start, e.End(), e.tag)
    ensures size.Some? && e.bytes != [] ==> e.End() <= size.value
  {
    forall y: nat | e.start <= y < e.End() ensures TagIs(cov, y, e.tag) && (size.Some? ==> y < size.value) {
      assert e.Spans(y);
      assert y in Trim(cov, size);
    }
    if size.Some? && e.bytes != [] {
      assert e.Spans(e.End() - 1);
    }
  }

  /** And those bytes suffice. */
  lemma NeededGives(cov: Cover, block: nat, size: Option<nat>, x: nat, tag: string) returns (e: Slice)
    requires block > 0 && (size.Some? ==> x < size.value)
    requires SameTag(cov, FloorTo(x, block), NeededTo(x, block, size), tag)
    ensures IsOutput(cov, block, size, e) && e.tag == tag && e.Spans(x)
  {
    var at := FloorTo(x, block);
    if size.None? {
      e := PieceExists(cov, block, at, x + 1 - at, tag);
    } else if at + block <= size.value {
      FullBlockIsOutput(cov, block, size, at, tag);
      e := Slice(at, BytesOf(cov, at, at + block, tag), tag);
    } else {
      LastBlockIsOutput(cov, block, size.value, at, tag);
      e := Slice(at, BytesOf(cov, at, size.value, tag), tag);
    }
  }

  /** The shape of every output key: on the new grid, at most a block, inside a known file and short only at its end. */
  lemma OutputShape(taken: seq<Entry>, block: nat, sizes: map<string, nat>, out: seq<Entry>, e: Entry)
    requires block > 0 && IsRemapOf(taken, block, sizes, out) && e in out
    ensures OnGrid(e.0.start, block) && 0 < e.0.size <= block && |e.1.bytes| == e.0.size
    ensures e.0.fname in sizes ==>
              var end := e.0.start + e.0.size;
              end <= sizes[e.0.fname] && (e.0.size == block || end == sizes[e.0.fname])
  {
    var s := SliceOf(e);
    assert IsOutput(FileCover(taken, e.0.fname), block, SizeOf(sizes, e.0.fname), s);
    assert s.Spans(s.End() - 1);
  }

  /** Every entry starts on the grid, has at most a block, and is alone at its file and start. */
  predicate ReaderLayout(taken: seq<Entry>, block: nat)
    requires block > 0
  {
    && OnePerStart(taken)
    && forall e :: e in taken ==> Sized(e) && OnGrid(e.0.start, block) && e.0.size <= block
  }

  /** However the remapped entries are listed when they are drained again, each file's blocks are its outputs. */
  lemma {:induction false} OutputsOfFile(
    taken: seq<Entry>, block: nat, sizes: map<string, nat>, out: seq<Entry>, listed: seq<Entry>, fname: string)
    requires block > 0 && IsRemapOf(taken, block, sizes, out)
    requires OnePerStart(listed) && forall e :: e in listed <==> e in out
    ensures IsRemap(FileCover(taken, fname), block, SizeOf(sizes, fname), FileBlocks(listed, fname))
  {
    forall e | e in listed ensures Sized(e) {
      assert e in out;
    }
    var blocks := FileBlocks(listed, fname);
    FileBlocksFrom(listed, fname);
    forall s ensures s in blocks <==> IsOutput(FileCover(taken, fname), block, SizeOf(sizes, fname), s) {
      var e := EntryOf(fname, s);
      assert SliceOf(e) == s;
      if e in out {
        FileBlocksAll(listed, fname, e);
      }
    }
  }

  lemma {:induction false} LayoutPerFile(taken: seq<Entry>, block: nat, fname: string)
    requires block > 0 && ReaderLayout(taken, block)
    ensures OnOldGrid(FileBlocks(taken, fname), block)
    ensures Kept(FileBlocks(taken, fname), 0) == FileBlocks(taken, fname)
  {
    var kept := FileBlocks(taken, fname);
    FileBlocksFrom(taken, fname);
    forall i | 0 <= i < |kept| ensures OnGrid(kept[i].start, block) && 0 < |kept[i].bytes| <= block {
      assert kept[i] in kept;
      assert EntryOf(fname, kept[i]) in taken;
    }
    GridDisjoint(kept, block);
    DisjointKeptWhole(kept, 0);
  }

  /**
    Round trip: remapping a fixed-grid cache to a divisor of its block size and back, without
    known file sizes, restores every key with its bytes and tag, and nothing else.
   */
  lemma {:induction false} RemapThereAndBack(
    taken: seq<Entry>, coarse: nat, fine: nat, out: seq<Entry>, listed: seq<Entry>, back: seq<Entry>, e: Entry)
    requires coarse > 0 && fine > 0 && OnGrid(coarse, fine) && ReaderLayout(taken, coarse)
    requires IsRemapOf(taken, fine, map[], out)
    requires OnePerStart(listed) && forall x :: x in listed <==> x in out
    requires IsRemapOf(listed, coarse, map[], back)
    ensures e in back <==> e in taken
  {
    var f := e.0.fname;
    FinerKeepsFileCover(taken, coarse, fine, out, listed, f);
    LayoutPerFile(taken, coarse, f);
    EntriesArePieces(FileBlocks(taken, f), coarse);
    EntryIffSlice(taken, f, e);
    assert IsOutput(FileCover(listed, f), coarse, None, SliceOf(e)) <==> SliceOf(e) in FileBlocks(taken, f);
  }

  lemma {:induction false} FinerKeepsFileCover(
    taken: seq<Entry>, coarse: nat, fine: nat, out: seq<Entry>, listed: seq<Entry>, fname: string)
    requires coarse > 0 && fine > 0 && OnGrid(coarse, fine) && ReaderLayout(taken, coarse)
    requires IsRemapOf(taken, fine, map[], out)
    requires OnePerStart(listed) && forall x :: x in listed <==> x in out
    ensures FileCover(listed, fname) == CoverOf(FileBlocks(taken, fname))
  {
    var kept, mid := FileBlocks(taken, fname), FileBlocks(listed, fname);
    LayoutPerFile(taken, coarse, fname);
    OutputsOfFile(taken, fine, map[], out, listed, fname);
    OutputsDisjoint(CoverOf(kept), fine, None, mid);
    DisjointKeptWhole(mid, 0);
    FinerKeepsCover(kept, coarse, fine, mid);
  }

  lemma {:induction false} EntryIffSlice(taken: seq<Entry>, fname: string, e: Entry)
    requires (forall x :: x in taken ==> Sized(x)) && OnePerStart(taken) && e.0.fname == fname
    ensures e in taken <==> SliceOf(e) in FileBlocks(taken, fname) && |e.1.bytes| == e.0.size
  {
    FileBlocksFrom(taken, fname);
    if e in taken {
      FileBlocksAll(taken, fname, e);
    }
    if SliceOf(e) in FileBlocks(taken, fname) && |e.1.bytes| == e.0.size {
      assert EntryOf(fname, SliceOf(e)) == e;
    }
  }
}
