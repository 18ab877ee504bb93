/** Facts about duplicate-free sequences, the model of the intrusive `std::list` orders. */
module Sequences {
  datatype Option<+T> = None | Some(value: T)

  predicate NoDup<T(==)>(s: seq<T>) {
    forall i, j :: 0 <= i < j < |s| ==> s[i] != s[j]
  }

  ghost function Elems<T(!new)>(s: seq<T>): (r: set<T>)
    ensures forall x :: x in r <==> x in s
  {
    set x | x in s
  }

  /** Erasing the node of `x`; on a duplicate-free list exactly one node goes. */
  function Without<T(==)>(s: seq<T>, x: T): seq<T> {
    if s == [] then []
    else if s[0] == x then Without(s[1..], x)
    else [s[0]] + Without(s[1..], x)
  }

  /** The other nodes stay, and an absent `x` changes nothing. */
  lemma {:induction false} WithoutFacts<T(!new)>(s: seq<T>, x: T)
    ensures forall y :: y in Without(s, x) <==> y in s && y != x
    ensures NoDup(s) ==> NoDup(Without(s, x))
    ensures x !in s ==> Without(s, x) == s
    ensures NoDup(s) && x in s ==> |Without(s, x)| == |s| - 1
  {
    if s != [] {
      var rest := Without(s[1..], x);
      WithoutFacts(s[1..], x);
      assert forall y :: y in s <==> y == s[0] || y in s[1..];
      if NoDup(s) {
        assert s[0] !in s[1..] && s[0] !in rest && NoDup(s[1..]);
        PrependNoDup(s[0], rest);
      }
      if x !in s {
        assert [s[0]] + s[1..] == s;
      }
    }
  }

  /** Splicing `x` to the front. */
  lemma MovedToFront<T(!new)>(s: seq<T>, x: T)
    requires NoDup(s)
    ensures var moved := [x] + Without(s, x);
            && NoDup(moved) && Elems(moved) == Elems(s) + {x}
            && (x in s ==> |moved| == |s|) && Without(moved, x) == Without(s, x)
    ensures x !in s ==> Without(s, x) == s
  {
    var rest := Without(s, x);
    WithoutFacts(s, x);
    WithoutFacts(rest, x);
    PrependNoDup(x, rest);
    assert ([x] + rest)[1..] == rest;
  }

  /** Popping the back node. */
  lemma WithoutLast<T(!new)>(s: seq<T>)
    requires NoDup(s) && s != []
    ensures var n := |s| - 1;
            NoDup(s[..n]) && Elems(s[..n]) == Elems(s) - {s[n]} && (n > 0 ==> s[0] != s[n])
  {
    var n := |s| - 1;
    assert s == s[..n] + [s[n]];
    assert s[n] !in s[..n];
  }

  /** Erasing from the list and from its index together. */
  lemma WithoutElems<T(!new)>(s: seq<T>, x: T)
    requires NoDup(s)
    ensures NoDup(Without(s, x)) && Elems(Without(s, x)) == Elems(s) - {x}
    ensures x !in s ==> Without(s, x) == s
    ensures |Without(s, x)| <= |s|
  {
    WithoutFacts(s, x);
  }

  lemma {:induction false} WithoutConcat<T(!new)>(a: seq<T>, b: seq<T>, x: T)
    ensures Without(a + b, x) == Without(a, x) + Without(b, x)
  {
    if a == [] {
      assert a + b == b;
    } else {
      assert (a + b)[1..] == a[1..] + b;
      WithoutConcat(a[1..], b, x);
    }
  }

  lemma {:induction false} WithoutAt<T(!new)>(s: seq<T>, i: nat)
    requires NoDup(s) && i < |s|
    ensures Without(s, s[i]) == s[..i] + s[i + 1..]
  {
    if i == 0 {
      assert s[0] !in s[1..];
      WithoutFacts(s[1..], s[0]);
      assert s[..0] + s[1..] == s[1..];
    } else {
      assert s[1..][i - 1] == s[i];
      WithoutAt(s[1..], i - 1);
      assert s[1..][..i - 1] == s[1..i] && s[1..][i..] == s[i + 1..];
      assert [s[0]] + (s[1..i] + s[i + 1..]) == s[..i] + s[i + 1..];
    }
  }

  lemma HasElems<T(!new)>(s: seq<T>)
    ensures s == [] <==> Elems(s) == {}
  {
    assert |s| > 0 ==> s[0] in s && s[0] in Elems(s);
  }

  /** A duplicate-free list has as many nodes as keys. */
  lemma {:induction false} NoDupSize<T(!new)>(s: seq<T>)
    requires NoDup(s)
    ensures |Elems(s)| == |s|
  {
    if s != [] {
      NoDupSize(s[1..]);
      assert Elems(s) == {s[0]} + Elems(s[1..]);
    }
  }

  lemma {:induction false} SubsetSize<T>(a: set<T>, b: set<T>)
    requires a <= b
    ensures |a| <= |b|
  {
    if a != {} {
      var x :| x in a;
      SubsetSize(a - {x}, b - {x});
    }
  }

  function Reverse<T>(s: seq<T>): (r: seq<T>)
    ensures |r| == |s|
    ensures forall i :: 0 <= i < |s| ==> r[i] == s[|s| - 1 - i]
  {
    seq(|s|, i requires 0 <= i < |s| => s[|s| - 1 - i])
  }

  /** `s` without the elements of `xs`. */
  function Excluding<T(==)>(s: seq<T>, xs: set<T>): seq<T> {
    if s == [] then []
    else if s[0] in xs then Excluding(s[1..], xs)
    else [s[0]] + Excluding(s[1..], xs)
  }

  lemma {:induction false} ExcludingElems<T(!new)>(s: seq<T>, xs: set<T>)
    ensures Elems(Excluding(s, xs)) == Elems(s) - xs
    ensures NoDup(s) ==> NoDup(Excluding(s, xs))
    ensures |Excluding(s, xs)| <= |s|
  {
    if s != [] {
      ExcludingElems(s[1..], xs);
      assert Elems(s) == {s[0]} + Elems(s[1..]);
      if s[0] !in xs {
        var r := Excluding(s[1..], xs);
        assert Elems([s[0]] + r) == {s[0]} + Elems(r);
        if NoDup(s) {
          assert s[0] !in Elems(s[1..]) by { assert forall i :: 0 < i < |s| ==> s[i] != s[0]; }
          assert s[0] !in Elems(r);
          PrependNoDup(s[0], r);
        }
      }
    }
  }

  lemma PrependNoDup<T(!new)>(x: T, s: seq<T>)
    requires NoDup(s) && x !in s
    ensures NoDup([x] + s)
  {
  }

  lemma {:induction false} ExcludingNothing<T>(s: seq<T>)
    ensures Excluding(s, {}) == s
  {
    if s != [] {
      ExcludingNothing(s[1..]);
    }
  }

  /** Erasing one more element. */
  lemma {:induction false} ExcludingOneMore<T(!new)>(s: seq<T>, xs: set<T>, x: T)
    ensures Without(Excluding(s, xs), x) == Excluding(s, xs + {x})
  {
    if s != [] {
      ExcludingOneMore(s[1..], xs, x);
    }
  }
}
