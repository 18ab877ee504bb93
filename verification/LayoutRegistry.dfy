/** Registered column-chunk extents per file: clean-up on registration, binary searches on lookup. */
module LayoutRegistry {
  import opened Sequences

  datatype Extent = Extent(offset: nat, size: nat) {
    function End(): nat {
      offset + size
    }

    predicate Covers(x: nat) {
      offset <= x < End()
    }
  }

  predicate SortedByOffset(s: seq<Extent>) {
    forall i, j :: 0 <= i < j < |s| ==> s[i].offset <= s[j].offset
  }

  /** Non-empty, ascending and disjoint. */
  predicate Clean(s: seq<Extent>) {
    && (forall i :: 0 <= i < |s| ==> s[i].size > 0)
    && (forall i, j :: 0 <= i < j < |s| ==> s[i].End() <= s[j].offset)
  }

  predicate AnyCovers(s: seq<Extent>, x: nat) {
    exists c :: c in s && c.Covers(x)
  }

  /** Nothing is invented, and every dropped extent is empty or starts inside a kept one. */
  predicate CleanedFrom(cleaned: seq<Extent>, given: seq<Extent>) {
    && (forall e :: e in cleaned ==> e in given)
    && (forall e {:trigger AnyCovers(cleaned, e.offset)} :: e in given && e.size > 0 ==> AnyCovers(cleaned, e.offset))
  }

  function Insert(s: seq<Extent>, e: Extent): (r: seq<Extent>)
    ensures multiset(r) == multiset(s) + multiset{e}
  {
    if s == [] || e.offset < s[0].offset then [e] + s
    else
      assert s == [s[0]] + s[1..];
      [s[0]] + Insert(s[1..], e)
  }

  lemma {:induction false} InsertSorted(s: seq<Extent>, e: Extent)
    requires SortedByOffset(s)
    ensures SortedByOffset(Insert(s, e))
  {
    if s != [] && s[0].offset <= e.offset {
      InsertSorted(s[1..], e);
      var r := Insert(s[1..], e);
      forall x | x in r ensures s[0].offset <= x.offset {
        assert x in multiset(r);
        assert x in multiset(s[1..]) || x == e;
        assert x in s[1..] || x == e;
      }
    }
  }

  /** A sort by offset; the order of equal offsets is not relied upon. */
  method Sort(extents: seq<Extent>) returns (sorted: seq<Extent>)
    ensures SortedByOffset(sorted) && multiset(sorted) == multiset(extents)
  {
    sorted := [];
    for i := 0 to |extents|
      invariant SortedByOffset(sorted) && multiset(sorted) == multiset(extents[..i])
    {
      InsertSorted(sorted, extents[i]);
      assert extents[..i + 1] == extents[..i] + [extents[i]];
      sorted := Insert(sorted, extents[i]);
    }
    assert extents[..|extents|] == extents;
  }

  /** Drop empty extents and those that start before the last kept one ends. */
  method CleanUp(sorted: seq<Extent>) returns (cleaned: seq<Extent>)
    requires SortedByOffset(sorted)
    ensures Clean(cleaned) && CleanedFrom(cleaned, sorted)
  {
    cleaned := [];
    for i := 0 to |sorted|
      invariant Clean(cleaned) && CleanedFrom(cleaned, sorted[..i])
      invariant cleaned != [] ==> forall j :: i <= j < |sorted| ==> cleaned[|cleaned| - 1].offset <= sorted[j].offset
    {
      var e := sorted[i];
      assert sorted[..i + 1] == sorted[..i] + [e];
      if e.size == 0 {
        continue;
      }
      if cleaned != [] && e.offset < cleaned[|cleaned| - 1].End() {
        assert cleaned[|cleaned| - 1].Covers(e.offset);
        continue;
      }
      KeepsCleaned(cleaned, sorted[..i], e);
      cleaned := cleaned + [e];
    }
    assert sorted[..|sorted|] == sorted;
  }

  lemma KeepsCleaned(cleaned: seq<Extent>, given: seq<Extent>, e: Extent)
    requires Clean(cleaned) && CleanedFrom(cleaned, given) && e.size > 0
    requires cleaned != [] ==> cleaned[|cleaned| - 1].End() <= e.offset
    ensures Clean(cleaned + [e]) && CleanedFrom(cleaned + [e], given + [e])
  {
    var all := cleaned + [e];
    assert forall i :: 0 <= i < |cleaned| ==> cleaned[i].End() <= e.offset;
    forall x | x in given + [e] && x.size > 0 ensures AnyCovers(all, x.offset) {
      if x == e {
        assert e in all && e.Covers(e.offset);
      } else {
        assert AnyCovers(cleaned, x.offset);
        var c :| c in cleaned && c.Covers(x.offset);
        assert c in all;
      }
    }
  }

  /** The number of extents that start at or before `offset`. */
  method UpperBound(s: seq<Extent>, offset: nat) returns (pos: nat)
    requires SortedByOffset(s)
    ensures pos <= |s|
    ensures forall i :: 0 <= i < pos ==> s[i].offset <= offset
    ensures forall i :: pos <= i < |s| ==> offset < s[i].offset
  {
    var lo, hi := 0, |s|;
    while lo < hi
      invariant 0 <= lo <= hi <= |s|
      invariant forall i :: 0 <= i < lo ==> s[i].offset <= offset
      invariant forall i :: hi <= i < |s| ==> offset < s[i].offset
    {
      var mid := (lo + hi) / 2;
      if offset < s[mid].offset {
        hi := mid;
      } else {
        lo := mid + 1;
      }
    }
    pos := lo;
  }

  /** The number of extents that start before `offset`. */
  method LowerBound(s: seq<Extent>, offset: nat) returns (pos: nat)
    requires SortedByOffset(s)
    ensures pos <= |s|
    ensures forall i :: 0 <= i < pos ==> s[i].offset < offset
    ensures forall i :: pos <= i < |s| ==> offset <= s[i].offset
  {
    var lo, hi := 0, |s|;
    while lo < hi
      invariant 0 <= lo <= hi <= |s|
      invariant forall i :: 0 <= i < lo ==> s[i].offset < offset
      invariant forall i :: hi <= i < |s| ==> offset <= s[i].offset
    {
      var mid := (lo + hi) / 2;
      if s[mid].offset < offset {
        lo := mid + 1;
      } else {
        hi := mid;
      }
    }
    pos := lo;
  }

  class Registry {
    var layouts: map<string, seq<Extent>>

    ghost predicate Valid() reads this {
      forall p :: p in layouts ==> Clean(layouts[p])
    }

    function Extents(path: string): seq<Extent> reads this {
      if path in layouts then layouts[path] else []
    }

    constructor ()
      ensures Valid() && layouts == map[]
    {
      layouts := map[];
    }

    method Register(path: string, extents: seq<Extent>) returns (count: nat)
      requires Valid()
      modifies this
      ensures Valid() && path in layouts && layouts == old(layouts)[path := layouts[path]]
      ensures CleanedFrom(layouts[path], extents) && count == |layouts[path]|
    {
      var sorted := Sort(extents);
      var cleaned := CleanUp(sorted);
      assert forall e :: e in extents <==> e in sorted by {
        assert forall e :: e in extents <==> e in multiset(extents);
        assert forall e :: e in sorted <==> e in multiset(sorted);
      }
      layouts := layouts[path := cleaned];
      count := |cleaned|;
    }

    /** The extent containing `offset`: what a linear scan would find. */
    method Find(path: string, offset: nat) returns (found: Option<Extent>)
      requires Valid()
      ensures found.Some? ==> found.value in Extents(path) && found.value.Covers(offset)
      ensures found.None? ==> forall e :: e in Extents(path) ==> !e.Covers(offset)
    {
      if path !in layouts {
        return None;
      }
      var extents := layouts[path];
      var pos := UpperBound(extents, offset);
      if pos == 0 {
        return None;
      }
      var e := extents[pos - 1];
      if offset < e.End() {
        return Some(e);
      }
      return None;
    }

    /** The least extent start that is not below `offset`. */
    method NextStart(path: string, offset: nat) returns (next: Option<nat>)
      requires Valid()
      ensures next.Some? ==> next.value >= offset && exists e :: e in Extents(path) && e.offset == next.value
      ensures forall e :: e in Extents(path) && e.offset >= offset ==> next.Some? && next.value <= e.offset
    {
      if path !in layouts {
        return None;
      }
      var extents := layouts[path];
      var pos := LowerBound(extents, offset);
      if pos == |extents| {
        return None;
      }
      assert extents[pos] in extents;
      return Some(extents[pos].offset);
    }

    method Forget(path: string)
      requires Valid()
      modifies this
      ensures Valid() && layouts == old(layouts) - {path}
    {
      layouts := layouts - {path};
    }
  }
}
