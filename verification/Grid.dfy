/** Rounding offsets down and up to a block or page grid. */
module Grid {
  predicate OnGrid(x: nat, block: nat)
    requires block > 0
  {
    x % block == 0
  }

  lemma MulMonotone(a: nat, b: nat, c: nat)
    requires a <= b
    ensures 0 <= a * c <= b * c
  {
    assert b * c == a * c + (b - a) * c;
    assert (b - a) * c >= 0 && a * c >= 0;
  }

  lemma MulSuccessor(a: nat, c: nat)
    ensures (a + 1) * c == a * c + c
  {
  }

  /** Quotient and remainder are determined by the division equation. */
  lemma DivisionIsUnique(x: nat, block: nat, q: nat, r: nat)
    requires block > 0 && x == q * block + r && r < block
    ensures x / block == q && x % block == r
  {
    var p := x / block;
    assert x == p * block + x % block;
    if q < p {
      MulMonotone(q + 1, p, block);
      MulSuccessor(q, block);
    } else if p < q {
      MulMonotone(p + 1, q, block);
      MulSuccessor(p, block);
    }
  }

  lemma SharesFit(x: nat, parts: nat)
    requires parts > 0
    ensures 0 <= parts * (x / parts) <= x
  {
    assert x == parts * (x / parts) + x % parts;
  }

  lemma MultipleOnGrid(q: nat, block: nat)
    requires block > 0
    ensures q * block >= 0 && q * block % block == 0 && q * block / block == q
  {
    assert q * block >= 0;
    DivisionIsUnique(q * block, block, q, 0);
  }

  function FloorTo(x: nat, block: nat): (r: nat)
    requires block > 0
    ensures OnGrid(r, block) && r <= x < r + block
  {
    MultipleOnGrid(x / block, block);
    x / block * block
  }

  /** Adding a block keeps the residue. */
  lemma NextOnGrid(x: nat, block: nat)
    requires block > 0
    ensures (x + block) % block == x % block
  {
    assert x == x / block * block + x % block;
    assert (x / block + 1) * block == x / block * block + block;
    DivisionIsUnique(x + block, block, x / block + 1, x % block);
  }

  /** Two grid points less than a block apart are the same point. */
  lemma GridPointsApart(x: nat, y: nat, block: nat)
    requires block > 0 && OnGrid(x, block) && OnGrid(y, block) && x < y
    ensures x + block <= y
  {
    var a, b := x / block, y / block;
    assert x == a * block && y == b * block;
    if b <= a {
      MulMonotone(b, a, block);
    } else {
      MulMonotone(a + 1, b, block);
      MulSuccessor(a, block);
    }
  }

  /** Grid points lie whole blocks apart. */
  lemma GridSpan(first: nat, last: nat, block: nat)
    requires block > 0 && OnGrid(first, block) && OnGrid(last, block) && first <= last
    ensures last == first + (last - first) / block * block
  {
    var a, b := first / block, last / block;
    assert first == a * block && last == b * block;
    if b < a {
      MulMonotone(b + 1, a, block);
      MulSuccessor(b, block);
    }
    assert last - first == (b - a) * block;
    DivisionIsUnique(last - first, block, b - a, 0);
  }

  /** A grid is coarser than every grid whose block divides its own. */
  lemma CoarserGrid(x: nat, coarse: nat, fine: nat)
    requires coarse > 0 && fine > 0 && OnGrid(coarse, fine) && OnGrid(x, coarse)
    ensures OnGrid(x, fine)
  {
    var a, b := x / coarse, coarse / fine;
    assert x == a * coarse && coarse == b * fine;
    assert a * (b * fine) == (a * b) * fine;
    assert a * b >= 0;
    MultipleOnGrid(a * b, fine);
  }

  /** The next grid point at or after `offset`. */
  function AlignUp(offset: nat, block: nat): (r: nat)
    requires block > 0
    ensures OnGrid(r, block) && offset <= r < offset + block
    ensures OnGrid(offset, block) ==> r == offset
  {
    var aligned := FloorTo(offset, block);
    NextOnGrid(aligned, block);
    if aligned < offset then
      assert !OnGrid(offset, block) by {
        if OnGrid(offset, block) { GridPointsApart(aligned, offset, block); }
      }
      aligned + block
    else aligned
  }
}
