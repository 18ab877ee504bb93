/** The second-chance queue that CLOCK is an implementation of. */
module SecondChance {
  import opened Blocks
  import opened Sequences

  datatype ClockEntry = ClockEntry(key: Block, referenced: bool)

  type Queue = seq<ClockEntry>

  function KeysOf(q: Queue): (r: seq<Block>)
    ensures |r| == |q|
    ensures forall i :: 0 <= i < |q| ==> r[i] == q[i].key
  {
    seq(|q|, i requires 0 <= i < |q| => q[i].key)
  }

  function Cleared(q: Queue): (r: Queue)
    ensures |r| == |q|
    ensures forall i :: 0 <= i < |q| ==> r[i] == ClockEntry(q[i].key, false)
  {
    seq(|q|, i requires 0 <= i < |q| => ClockEntry(q[i].key, false))
  }

  function Position(q: Queue, key: Block): (i: nat)
    requires key in KeysOf(q)
    ensures i < |q| && q[i].key == key
    ensures forall j :: 0 <= j < i ==> q[j].key != key
  {
    if q[0].key == key then 0 else
    assert KeysOf(q[1..]) == KeysOf(q)[1..];
    1 + Position(q[1..], key)
  }

  function Mark(q: Queue, key: Block): (r: Queue)
    ensures KeysOf(r) == KeysOf(q)
    ensures forall i :: 0 <= i < |q| ==> r[i].referenced == (q[i].referenced || q[i].key == key)
  {
    seq(|q|, i requires 0 <= i < |q| => if q[i].key == key then ClockEntry(key, true) else q[i])
  }

  function Remove(q: Queue, key: Block): Queue {
    if q == [] then []
    else if q[0].key == key then Remove(q[1..], key)
    else [q[0]] + Remove(q[1..], key)
  }

  lemma {:induction false} RemoveKeys(q: Queue, key: Block)
    ensures KeysOf(Remove(q, key)) == Without(KeysOf(q), key)
  {
    if q != [] {
      assert KeysOf(q)[1..] == KeysOf(q[1..]);
      RemoveKeys(q[1..], key);
    }
  }

  lemma {:induction false} RemoveAt(q: Queue, i: nat)
    requires i < |q| && forall j :: 0 <= j < |q| && j != i ==> q[j].key != q[i].key
    ensures Remove(q, q[i].key) == q[..i] + q[i + 1..]
  {
    if i == 0 {
      RemoveAbsent(q[1..], q[0].key);
      assert q[..0] + q[1..] == q[1..];
    } else {
      var t := q[1..];
      assert t[i - 1] == q[i] && q[0].key != q[i].key;
      RemoveAt(t, i - 1);
      assert Remove(q, q[i].key) == [q[0]] + Remove(t, q[i].key);
      assert [q[0]] + (t[..i - 1] + t[i..]) == q[..i] + q[i + 1..];
    }
  }

  lemma {:induction false} RemoveAbsent(q: Queue, key: Block)
    requires forall j :: 0 <= j < |q| ==> q[j].key != key
    ensures Remove(q, key) == q
  {
    if q != [] {
      RemoveAbsent(q[1..], key);
    }
  }

  function ReferencedCount(q: Queue): (n: nat)
    ensures n <= |q|
  {
    if q == [] then 0 else
    (if q[0].referenced then 1 else 0) + ReferencedCount(q[1..])
  }

  lemma {:induction false} ReferencedCountConcat(a: Queue, b: Queue)
    ensures ReferencedCount(a + b) == ReferencedCount(a) + ReferencedCount(b)
  {
    if a == [] {
      assert a + b == b;
    } else {
      assert (a + b)[1..] == a[1..] + b;
      ReferencedCountConcat(a[1..], b);
    }
  }

  /** One referenced head given its second chance. */
  function Spare(q: Queue): (r: Queue)
    requires q != [] && q[0].referenced
    ensures |r| == |q| && ReferencedCount(r) == ReferencedCount(q) - 1
  {
    ReferencedCountConcat(q[1..], [ClockEntry(q[0].key, false)]);
    q[1..] + [ClockEntry(q[0].key, false)]
  }

  /** Sweep from the head: spare referenced entries, take the first clear one. */
  function Sweep(q: Queue): (r: (Block, Queue))
    requires q != []
    ensures |r.1| == |q| - 1
    decreases ReferencedCount(q)
  {
    if q[0].referenced then Sweep(Spare(q)) else (q[0].key, q[1..])
  }

  /** The victim is the first clear entry; the entries in front of it move to the back, cleared. */
  lemma {:induction false} SweepTakesFirstClear(q: Queue, j: nat)
    requires j < |q| && !q[j].referenced
    requires forall i :: 0 <= i < j ==> q[i].referenced
    ensures Sweep(q) == (q[j].key, q[j + 1..] + Cleared(q[..j]))
    decreases j
  {
    if j == 0 {
      assert q[1..] + Cleared(q[..0]) == q[1..];
    } else {
      var s := Spare(q);
      SweepTakesFirstClear(s, j - 1);
      assert s[j - 1] == q[j];
      assert s[j..] + Cleared(s[..j - 1]) == q[j + 1..] + Cleared(q[..j]);
    }
  }

  /** When every entry was referenced, one full round clears all bits and the head goes. */
  lemma {:induction false} SweepAllReferenced(q: Queue)
    requires q != [] && forall i :: 0 <= i < |q| ==> q[i].referenced
    ensures Sweep(q) == (q[0].key, Cleared(q[1..]))
  {
    var s := Spare(q);
    var last := |q| - 1;
    assert !s[last].referenced && s[last].key == q[0].key;
    if last == 0 {
      assert Cleared(q[1..]) == s[1..];
    } else {
      SweepTakesFirstClear(s, last);
      SparedRound(q);
    }
  }

  lemma SparedRound(q: Queue)
    requires q != [] && q[0].referenced
    ensures var s := Spare(q);
            s[|q|..] + Cleared(s[..|q| - 1]) == Cleared(q[1..])
  {
    assert Spare(q)[..|q| - 1] == q[1..];
  }

  /** A sweep removes its victim's key and nothing else. */
  lemma {:induction false} SweepKeys(q: Queue)
    requires q != [] && NoDup(KeysOf(q))
    ensures var (victim, rest) := Sweep(q);
            victim in KeysOf(q) && NoDup(KeysOf(rest)) &&
            Elems(KeysOf(rest)) == Elems(KeysOf(q)) - {victim}
    decreases ReferencedCount(q)
  {
    var keys := KeysOf(q);
    if q[0].referenced {
      var s := Spare(q);
      assert KeysOf(s) == keys[1..] + [keys[0]];
      SweepKeys(s);
      assert Elems(KeysOf(s)) == Elems(keys);
    } else {
      assert KeysOf(q[1..]) == keys[1..];
      assert keys[0] !in keys[1..];
    }
  }
}
