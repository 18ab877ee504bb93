/** Remapping to a divisor of the block size and back restores the cache. */
module RemapRoundTrip {
  import opened Blocks
  import opened Grid
  import opened Sequences
  import opened RemapSpec
  import opened Remap

  /** Entries as a fixed-grid reader leaves them: on the grid, one per start, at most a block each. */
  predicate OnOldGrid(kept: seq<Slice>, block: nat)
    requires block > 0
  {
    InOrder(kept) && forall i :: 0 <= i < |kept| ==> OnGrid(kept[i].start, block) && 0 < |kept[i].bytes| <= block
  }

  lemma GridDisjoint(kept: seq<Slice>, block: nat)
    requires block > 0 && OnOldGrid(kept, block)
    ensures Disjoint(kept)
  {
    forall i, j | 0 <= i < j < |kept| ensures kept[i].End() <= kept[j].start {
      GridPointsApart(kept[i].start, kept[j].start, block);
    }
  }

  /** The byte after a short entry is not cached at all. */
  lemma {:induction false} NothingAfterShort(kept: seq<Slice>, block: nat, i: nat)
    requires block > 0 && OnOldGrid(kept, block) && i < |kept| && |kept[i].bytes| < block
    ensures kept[i].End() !in CoverOf(kept)
  {
    var x := kept[i].End();
    CoverDomain(kept, x);
    GridDisjoint(kept, block);
    forall j | 0 <= j < |kept| ensures !kept[j].Spans(x) {
      if i < j {
        GridPointsApart(kept[i].start, kept[j].start, block);
      }
    }
  }

  /** Old-grid entries are exactly the old-grid pieces of their own cover. */
  lemma {:induction false} EntriesArePieces(kept: seq<Slice>, block: nat)
    requires block > 0 && OnOldGrid(kept, block)
    ensures IsRemap(CoverOf(kept), block, None, kept)
  {
    var cov := CoverOf(kept);
    GridDisjoint(kept, block);
    forall i | 0 <= i < |kept| ensures IsPiece(cov, block, kept[i]) {
      CoverAgrees(kept, i);
      if |kept[i].bytes| < block {
        NothingAfterShort(kept, block, i);
      }
    }
    forall e | IsOutput(cov, block, None, e) ensures e in kept {
      assert e.Spans(e.start);
      CoverDomain(kept, e.start);
      var j :| 0 <= j < |kept| && kept[j].Spans(e.start);
      OnlyGridPoint(kept[j].start, e.start, block);
      PieceUnique(cov, block, e, kept[j]);
    }
  }

  /** A cached grid point always starts a piece. */
  lemma {:induction false} PieceExists(cov: Cover, block: nat, at: nat, len: nat, tag: string) returns (e: Slice)
    requires block > 0 && OnGrid(at, block) && 0 < len <= block && SameTag(cov, at, at + len, tag)
    ensures IsPiece(cov, block, e) && e.start == at && e.tag == tag && |e.bytes| >= len
    decreases block - len
  {
    if len < block && TagIs(cov, at + len, tag) {
      e := PieceExists(cov, block, at, len + 1, tag);
    } else {
      e := Slice(at, BytesOf(cov, at, at + len, tag), tag);
      forall x: nat | e.Spans(x) ensures x in cov && cov[x] == e.CellAt(x) {
        assert TagIs(cov, x, tag) && x == at + (x - at);
      }
    }
  }

  /** Every cached byte survives a remap to a finer grid. */
  lemma {:induction false} ByteSurvives(kept: seq<Slice>, coarse: nat, fine: nat, out: seq<Slice>, j: nat, x: nat)
    requires coarse > 0 && fine > 0 && OnGrid(coarse, fine) && OnOldGrid(kept, coarse)
    requires IsRemap(CoverOf(kept), fine, None, out) && j < |kept| && kept[j].Spans(x)
    ensures Spanned(out, x)
  {
    var cov, s, at := CoverOf(kept), kept[j], FloorTo(x, fine);
    GridDisjoint(kept, coarse);
    CoarserGrid(s.start, coarse, fine);
    if at < s.start {
      GridPointsApart(at, s.start, fine);
    }
    CoverAgrees(kept, j);
    forall y: nat | at <= y < x + 1 ensures TagIs(cov, y, s.tag) {
      assert s.Spans(y);
    }
    var e := PieceExists(cov, fine, at, x + 1 - at, s.tag);
    assert IsOutput(cov, fine, None, e);
    assert e in out && e.Spans(x);
  }

  /** A remap to a finer grid keeps the whole cover: every byte with its tag. */
  lemma {:induction false} FinerKeepsCover(kept: seq<Slice>, coarse: nat, fine: nat, out: seq<Slice>)
    requires coarse > 0 && fine > 0 && OnGrid(coarse, fine) && OnOldGrid(kept, coarse)
    requires IsRemap(CoverOf(kept), fine, None, out)
    ensures CoverOf(out) == CoverOf(kept)
  {
    var cov, cov' := CoverOf(kept), CoverOf(out);
    OutputsDisjoint(cov, fine, None, out);
    forall x | x in cov' ensures x in cov && cov[x] == cov'[x] {
      CoverDomain(out, x);
      var i :| 0 <= i < |out| && out[i].Spans(x);
      CoverAgrees(out, i);
      RemapSound(cov, fine, None, out, out[i]);
    }
    forall x | x in cov ensures x in cov' {
      CoverDomain(kept, x);
      var j :| 0 <= j < |kept| && kept[j].Spans(x);
      ByteSurvives(kept, coarse, fine, out, j, x);
      CoverDomain(out, x);
    }
  }

  /** Ascending lists with the same elements are the same list. */
  lemma {:induction false} SameList(a: seq<Slice>, b: seq<Slice>)
    requires Ascending(a) && Ascending(b) && forall e :: e in a <==> e in b
    ensures a == b
  {
    HeadIsLeast(a);
    HeadIsLeast(b);
    if a != [] {
      assert a[0] in b && b[0] in a;
      forall e ensures e in a[1..] <==> e in b[1..] {
        TailMembers(a, e);
        TailMembers(b, e);
      }
      SameList(a[1..], b[1..]);
    }
  }

  lemma HeadIsLeast(a: seq<Slice>)
    requires Ascending(a)
    ensures a != [] ==> a[0] in a && forall e :: e in a ==> e == a[0] || a[0].start < e.start
  {
  }

  lemma TailMembers(a: seq<Slice>, e: Slice)
    requires Ascending(a) && a != []
    ensures e in a[1..] <==> e in a && e != a[0]
  {
  }

  /** One file: to a finer grid and back is the identity, entry for entry. */
  lemma {:induction false} FileRoundTrip(kept: seq<Slice>, coarse: nat, fine: nat, out: seq<Slice>, back: seq<Slice>)
    requires coarse > 0 && fine > 0 && OnGrid(coarse, fine) && OnOldGrid(kept, coarse)
    requires IsRemap(CoverOf(kept), fine, None, out) && IsRemap(CoverOf(out), coarse, None, back)
    ensures back == kept
  {
    FinerKeepsCover(kept, coarse, fine, out);
    EntriesArePieces(kept, coarse);
    SameList(back, kept);
  }
}
