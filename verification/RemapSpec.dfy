/**
  What a block-size remap means. A file's cached bytes form a cover: each offset holds a byte
  and the tag it was stored under. A remap re-cuts the cover on a new grid.
 */
module RemapSpec {
  import opened Blocks
  import opened Grid
  import opened Sequences

  datatype Cell = Cell(b: byte, tag: string)
  type Cover = map<nat, Cell>

  /** One cached range of a file. */
  datatype Slice = Slice(start: nat, bytes: seq<byte>, tag: string) {
    function End(): nat {
      start + |bytes|
    }

    predicate Spans(x: nat) {
      start <= x < End()
    }

    function CellAt(x: nat): Cell
      requires Spans(x)
    {
      Cell(bytes[x - start], tag)
    }
  }

  /** Non-empty and in order without overlap. */
  predicate Disjoint(s: seq<Slice>) {
    && (forall i :: 0 <= i < |s| ==> s[i].bytes != [])
    && (forall i, j :: 0 <= i < j < |s| ==> s[i].End() <= s[j].start)
  }

  /** The slice's bytes are the cover's, under the slice's tag. */
  ghost predicate Within(s: Slice, cov: Cover) {
    forall x {:trigger s.Spans(x)} :: s.Spans(x) ==> x in cov && cov[x] == s.CellAt(x)
  }

  ghost predicate Spanned(s: seq<Slice>, x: nat) {
    exists i :: 0 <= i < |s| && s[i].Spans(x)
  }

  ghost function SliceCover(s: Slice): Cover {
    map x | s.start <= x < s.End() :: s.CellAt(x)
  }

  ghost function CoverOf(s: seq<Slice>): Cover {
    if s == [] then map[] else CoverOf(s[..|s| - 1]) + SliceCover(s[|s| - 1])
  }

  lemma {:induction false} CoverDomain(s: seq<Slice>, x: nat)
    ensures x in CoverOf(s) <==> Spanned(s, x)
  {
    if s != [] {
      var n := |s| - 1;
      CoverDomain(s[..n], x);
      if x in CoverOf(s[..n]) {
        var i :| 0 <= i < n && s[..n][i].Spans(x);
        assert s[i].Spans(x);
      }
      if Spanned(s, x) {
        var i :| 0 <= i < |s| && s[i].Spans(x);
        if i < n {
          assert s[..n][i].Spans(x);
        }
      }
    }
  }

  lemma {:induction false} CoverAgrees(s: seq<Slice>, i: nat)
    requires Disjoint(s) && i < |s|
    ensures Within(s[i], CoverOf(s))
  {
    var n := |s| - 1;
    if i < n {
      CoverAgrees(s[..n], i);
      assert s[..n][i] == s[i];
      forall x | s[i].Spans(x) ensures x in CoverOf(s) && CoverOf(s)[x] == s[i].CellAt(x) {
        assert !s[n].Spans(x);
      }
    }
  }

  /** The part of the cover inside a known file size. */
  ghost function Trim(cov: Cover, size: Option<nat>): Cover {
    if size.None? then cov else map x | x in cov && x < size.value :: cov[x]
  }

  /**
    A new-grid entry: it starts on the grid, its bytes are cached under one tag, and it is
    as long as the block size and the cached bytes allow.
   */
  ghost predicate IsPiece(cov: Cover, block: nat, e: Slice)
    requires block > 0
  {
    && OnGrid(e.start, block) && 0 < |e.bytes| <= block
    && Within(e, cov)
    && (|e.bytes| == block || !(e.End() in cov && cov[e.End()].tag == e.tag))
  }

  /** With a known file size, a short entry is only worth keeping at the end of the file. */
  predicate Keeps(e: Slice, block: nat, size: Option<nat>) {
    size.None? || |e.bytes| == block || e.End() == size.value
  }

  /** The entries a remap of the cover produces. */
  ghost predicate IsOutput(cov: Cover, block: nat, size: Option<nat>, e: Slice)
    requires block > 0
  {
    IsPiece(Trim(cov, size), block, e) && Keeps(e, block, size)
  }

  /** At most one piece starts at an offset. */
  lemma PieceUnique(cov: Cover, block: nat, e: Slice, f: Slice)
    requires block > 0 && IsPiece(cov, block, e) && IsPiece(cov, block, f) && e.start == f.start
    ensures e == f
  {
    assert e.Spans(e.start) && f.Spans(e.start);
    assert |e.bytes| < |f.bytes| ==> f.Spans(e.End());
    assert |f.bytes| < |e.bytes| ==> e.Spans(f.End());
    forall i | 0 <= i < |e.bytes| ensures e.bytes[i] == f.bytes[i] {
      assert e.Spans(e.start + i) && f.Spans(e.start + i);
    }
  }

  /** Strictly ascending starts: no entry twice. */
  predicate Ascending(out: seq<Slice>) {
    forall i, j :: 0 <= i < j < |out| ==> out[i].start < out[j].start
  }

  /** Exactly the output entries of the cover, in ascending order. */
  ghost predicate IsRemap(cov: Cover, block: nat, size: Option<nat>, out: seq<Slice>)
    requires block > 0
  {
    Ascending(out) && forall e :: e in out <==> IsOutput(cov, block, size, e)
  }

  // Consequences.

  /** Outputs of one remap never overlap. */
  lemma OutputsDisjoint(cov: Cover, block: nat, size: Option<nat>, out: seq<Slice>)
    requires block > 0 && IsRemap(cov, block, size, out)
    ensures Disjoint(out)
  {
    forall i | 0 <= i < |out| ensures IsOutput(cov, block, size, out[i]) {
      assert out[i] in out;
    }
    forall i, j | 0 <= i < j < |out| ensures out[i].End() <= out[j].start {
      assert IsOutput(cov, block, size, out[i]) && IsOutput(cov, block, size, out[j]);
      GridPointsApart(out[i].start, out[j].start, block);
    }
  }

  /** Soundness: on the new grid, at most a block, inside the file, and every byte and tag comes from the cache. */
  lemma RemapSound(cov: Cover, block: nat, size: Option<nat>, out: seq<Slice>, e: Slice)
    requires block > 0 && IsRemap(cov, block, size, out) && e in out
    ensures OnGrid(e.start, block) && 0 < |e.bytes| <= block
    ensures size.Some? ==> e.End() <= size.value && (|e.bytes| == block || e.End() == size.value)
    ensures Within(e, cov)
  {
    assert IsOutput(cov, block, size, e);
    forall x | e.Spans(x) ensures x in cov && cov[x] == e.CellAt(x) {
      assert x in Trim(cov, size);
    }
    assert e.Spans(e.End() - 1);
  }

  ghost predicate TagIs(cov: Cover, x: nat, tag: string) {
    x in cov && cov[x].tag == tag
  }

  ghost predicate SameTag(cov: Cover, from: nat, to: nat, tag: string) {
    forall x {:trigger TagIs(cov, x, tag)} :: from <= x < to ==> TagIs(cov, x, tag)
  }

  ghost function BytesOf(cov: Cover, from: nat, to: nat, tag: string): (r: seq<byte>)
    requires from <= to && SameTag(cov, from, to, tag)
    ensures |r| == to - from
    ensures forall i :: 0 <= i < to - from ==> TagIs(cov, from + i, tag) && r[i] == cov[from + i].b
  {
    seq(to - from, i requires 0 <= i < to - from => assert TagIs(cov, from + i, tag); cov[from + i].b)
  }

  /** Every block of the new grid cached whole under one tag is an output. */
  lemma FullBlockIsOutput(cov: Cover, block: nat, size: Option<nat>, at: nat, tag: string)
    requires block > 0 && OnGrid(at, block)
    requires SameTag(cov, at, at + block, tag) && (size.Some? ==> at + block <= size.value)
    ensures IsOutput(cov, block, size, Slice(at, BytesOf(cov, at, at + block, tag), tag))
  {
    var e := Slice(at, BytesOf(cov, at, at + block, tag), tag);
    forall x: nat | e.Spans(x) ensures x in Trim(cov, size) && Trim(cov, size)[x] == e.CellAt(x) {
      assert TagIs(cov, x, tag) && x == at + (x - at);
    }
  }

  /** A short last block whose bytes are all cached under one tag is an output. */
  lemma LastBlockIsOutput(cov: Cover, block: nat, size: nat, at: nat, tag: string)
    requires block > 0 && OnGrid(at, block) && at < size < at + block && SameTag(cov, at, size, tag)
    ensures IsOutput(cov, block, Some(size), Slice(at, BytesOf(cov, at, size, tag), tag))
  {
    var e := Slice(at, BytesOf(cov, at, size, tag), tag);
    forall x: nat | e.Spans(x) ensures x in Trim(cov, Some(size)) && Trim(cov, Some(size))[x] == e.CellAt(x) {
      assert TagIs(cov, x, tag) && x == at + (x - at);
    }
  }
}
