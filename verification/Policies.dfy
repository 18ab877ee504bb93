/** The eviction policies: an abstract order per policy, and the list-based classes that keep it. */
module Policies {
  import opened Blocks
  import opened Sequences
  import opened SecondChance

  datatype Pop = Nothing | Popped(victim: Block, rest: PolicyState)

  /** What a policy remembers. List orders run from the front; the CLOCK queue runs from the hand. */
  datatype PolicyState =
    | Lru(order: seq<Block>)
    | Fifo(order: seq<Block>)
    | Mru(order: seq<Block>)
    | Clock(queue: Queue)
  {
    function Keys(): seq<Block> {
      if Clock? then KeysOf(queue) else order
    }

    predicate SameKind(other: PolicyState) {
      Lru? == other.Lru? && Fifo? == other.Fifo? && Mru? == other.Mru?
    }

    predicate WellFormed() {
      NoDup(Keys())
    }

    function OnHit(key: Block): PolicyState {
      if key !in Keys() then this else
      match this
      case Lru(order) => Lru([key] + Without(order, key))
      case Mru(order) => Mru([key] + Without(order, key))
      case Fifo(_) => this
      case Clock(queue) => Clock(Mark(queue, key))
    }

    function OnInsert(key: Block): PolicyState {
      match this
      case Lru(order) => Lru([key] + Without(order, key))
      case Mru(order) => Mru([key] + Without(order, key))
      case Fifo(order) => if key in order then this else Fifo([key] + order)
      case Clock(queue) =>
        if key in KeysOf(queue) then this else Clock(queue + [ClockEntry(key, false)])
    }

    function OnErase(key: Block): PolicyState {
      match this
      case Lru(order) => Lru(Without(order, key))
      case Mru(order) => Mru(Without(order, key))
      case Fifo(order) => Fifo(Without(order, key))
      case Clock(queue) => Clock(Remove(queue, key))
    }

    function PopVictim(): Pop {
      if Keys() == [] then Nothing else
      match this
      case Lru(order) => Popped(order[|order| - 1], Lru(order[..|order| - 1]))
      case Fifo(order) => Popped(order[|order| - 1], Fifo(order[..|order| - 1]))
      case Mru(order) => Popped(order[0], Mru(order[1..]))
      case Clock(queue) => var (victim, rest) := Sweep(queue); Popped(victim, Clock(rest))
    }

    function Emptied(): PolicyState {
      match this
      case Lru(_) => Lru([])
      case Fifo(_) => Fifo([])
      case Mru(_) => Mru([])
      case Clock(_) => Clock([])
    }
  }

  // What every policy does to the set of keys it tracks, whatever its order.

  lemma HitKeepsKeys(p: PolicyState, key: Block)
    requires p.WellFormed()
    ensures p.OnHit(key).WellFormed() && p.OnHit(key).SameKind(p)
    ensures Elems(p.OnHit(key).Keys()) == Elems(p.Keys())
  {
    if p.Clock? {
      assert p.OnHit(key).Keys() == p.Keys();
    } else {
      MovedToFront(p.order, key);
    }
  }

  lemma InsertAddsKey(p: PolicyState, key: Block)
    requires p.WellFormed()
    ensures p.OnInsert(key).WellFormed() && p.OnInsert(key).SameKind(p)
    ensures Elems(p.OnInsert(key).Keys()) == Elems(p.Keys()) + {key}
  {
    if !p.Clock? {
      MovedToFront(p.order, key);
    } else if key !in p.Keys() {
      assert p.OnInsert(key).Keys() == p.Keys() + [key];
    }
  }

  lemma EraseRemovesKey(p: PolicyState, key: Block)
    requires p.WellFormed()
    ensures p.OnErase(key).WellFormed() && p.OnErase(key).SameKind(p)
    ensures Elems(p.OnErase(key).Keys()) == Elems(p.Keys()) - {key}
  {
    if p.Clock? {
      RemoveKeys(p.queue, key);
    }
    WithoutElems(p.Keys(), key);
  }

  /** A policy that tracks anything yields a victim it tracks, and forgets exactly that key. */
  lemma PopRemovesVictim(p: PolicyState)
    requires p.WellFormed() && p.Keys() != []
    ensures p.PopVictim().Popped?
    ensures var Popped(victim, rest) := p.PopVictim();
            victim in p.Keys() && rest.WellFormed() && rest.SameKind(p) &&
            Elems(rest.Keys()) == Elems(p.Keys()) - {victim} && |rest.Keys()| < |p.Keys()|
  {
    if p.Clock? {
      SweepKeys(p.queue);
    }
  }

  // The classes. Each keeps its list and the key set of its hash index in step.

  class LruPolicy {
    var order: seq<Block>
    var index: set<Block>

    ghost predicate Valid() reads this {
      NoDup(order) && index == Elems(order)
    }

    ghost function View(): PolicyState reads this {
      Lru(order)
    }

    constructor ()
      ensures Valid() && View() == Lru([])
    {
      order, index := [], {};
    }

    method OnHit(key: Block)
      requires Valid()
      modifies this
      ensures Valid() && View() == old(View()).OnHit(key)
    {
      if key !in index {
        return;
      }
      MovedToFront(order, key);
      order := [key] + Without(order, key);
    }

    method OnInsert(key: Block)
      requires Valid()
      modifies this
      ensures Valid() && View() == old(View()).OnInsert(key)
    {
      MovedToFront(order, key);
      if key in index {
        order := [key] + Without(order, key);
        return;
      }
      order := [key] + order;
      index := index + {key};
    }

    method OnErase(key: Block)
      requires Valid()
      modifies this
      ensures Valid() && View() == old(View()).OnErase(key)
    {
      WithoutElems(order, key);
      if key !in index {
        return;
      }
      order := Without(order, key);
      index := index - {key};
    }

    method PopVictim() returns (victim: Option<Block>)
      requires Valid()
      modifies this
      ensures Valid()
      ensures match old(View()).PopVictim()
              case Nothing => victim == None && View() == old(View())
              case Popped(v, rest) => victim == Some(v) && View() == rest
    {
      if order == [] {
        return None;
      }
      var v := order[|order| - 1];
      index := index - {v};
      order := order[..|order| - 1];
      return Some(v);
    }

    method Clear()
      modifies this
      ensures Valid() && View() == Lru([])
    {
      order, index := [], {};
    }
  }

  class MruPolicy {
    var order: seq<Block>
    var index: set<Block>

    ghost predicate Valid() reads this {
      NoDup(order) && index == Elems(order)
    }

    ghost function View(): PolicyState reads this {
      Mru(order)
    }

    constructor ()
      ensures Valid() && View() == Mru([])
    {
      order, index := [], {};
    }

    method OnHit(key: Block)
      requires Valid()
      modifies this
      ensures Valid() && View() == old(View()).OnHit(key)
    {
      if key !in index {
        return;
      }
      MovedToFront(order, key);
      order := [key] + Without(order, key);
    }

    method OnInsert(key: Block)
      requires Valid()
      modifies this
      ensures Valid() && View() == old(View()).OnInsert(key)
    {
      MovedToFront(order, key);
      if key in index {
        order := [key] + Without(order, key);
        return;
      }
      order := [key] + order;
      index := index + {key};
    }

    method OnErase(key: Block)
      requires Valid()
      modifies this
      ensures Valid() && View() == old(View()).OnErase(key)
    {
      WithoutElems(order, key);
      if key !in index {
        return;
      }
      order := Without(order, key);
      index := index - {key};
    }

    // Unlike LRU, the most recently touched key is the victim.
    method PopVictim() returns (victim: Option<Block>)
      requires Valid()
      modifies this
      ensures Valid()
      ensures match old(View()).PopVictim()
              case Nothing => victim == None && View() == old(View())
              case Popped(v, rest) => victim == Some(v) && View() == rest
    {
      if order == [] {
        return None;
      }
      var v := order[0];
      index := index - {v};
      order := order[1..];
      return Some(v);
    }

    method Clear()
      modifies this
      ensures Valid() && View() == Mru([])
    {
      order, index := [], {};
    }
  }

  class FifoPolicy {
    var order: seq<Block>
    var index: set<Block>

    ghost predicate Valid() reads this {
      NoDup(order) && index == Elems(order)
    }

    ghost function View(): PolicyState reads this {
      Fifo(order)
    }

    constructor ()
      ensures Valid() && View() == Fifo([])
    {
      order, index := [], {};
    }

    method OnHit(key: Block)
      requires Valid()
      ensures Valid() && View() == old(View()).OnHit(key)
    {
    }

    method OnInsert(key: Block)
      requires Valid()
      modifies this
      ensures Valid() && View() == old(View()).OnInsert(key)
    {
      if key in index {
        return;
      }
      order := [key] + order;
      index := index + {key};
    }

    method OnErase(key: Block)
      requires Valid()
      modifies this
      ensures Valid() && View() == old(View()).OnErase(key)
    {
      WithoutElems(order, key);
      if key !in index {
        return;
      }
      order := Without(order, key);
      index := index - {key};
    }

    method PopVictim() returns (victim: Option<Block>)
      requires Valid()
      modifies this
      ensures Valid()
      ensures match old(View()).PopVictim()
              case Nothing => victim == None && View() == old(View())
              case Popped(v, rest) => victim == Some(v) && View() == rest
    {
      if order == [] {
        return None;
      }
      var v := order[|order| - 1];
      index := index - {v};
      order := order[..|order| - 1];
      return Some(v);
    }

    method Clear()
      modifies this
      ensures Valid() && View() == Fifo([])
    {
      order, index := [], {};
    }
  }

  /** The ring read from the hand onwards; a hand at the end reads like one at the beginning. */
  function Rotated(ring: Queue, hand: nat): Queue
    requires hand <= |ring|
  {
    ring[hand..] + ring[..hand]
  }

  /** Where the hand ends up after `Advance` and the erasure of node `i`. */
  function HandAfterErase(n: nat, hand: nat, i: nat): (h: nat)
    requires i < n && hand <= n
    ensures h <= n - 1
  {
    var advanced := if hand == i then (if i + 1 == n then 0 else i + 1) else hand;
    if advanced > i then advanced - 1 else if n == 1 then 0 else advanced
  }

  /** The place of ring node `i` in the rotated queue. */
  function QueuePosition(n: nat, hand: nat, i: nat): (p: nat)
    requires i < n && hand <= n
    ensures p < n
  {
    if hand <= i then i - hand else i + n - hand
  }

  lemma RotatedParts(a: Queue, b: Queue)
    ensures Rotated(a + b, |a|) == b + a
  {
    assert (a + b)[|a|..] == b && (a + b)[..|a|] == a;
  }

  lemma WithoutMiddle(a: Queue, x: ClockEntry, b: Queue)
    ensures var q := a + [x] + b;
            q[..|a|] == a && q[|a| + 1..] == b && q[..|a|] + q[|a| + 1..] == a + b
  {
  }

  lemma Associates(a: Queue, b: Queue, c: Queue)
    ensures (a + b) + c == a + (b + c)
  {
  }

  lemma ErasedAheadOfHand(ring: Queue, hand: nat, i: nat)
    requires hand <= i < |ring|
    ensures var q, p := Rotated(ring, hand), i - hand;
            Rotated(ring[..i] + ring[i + 1..], HandAfterErase(|ring|, hand, i)) == q[..p] + q[p + 1..]
  {
    var front, mid, x, back := ring[..hand], ring[hand..i], ring[i], ring[i + 1..];
    assert ring == front + (mid + [x] + back) && ring[..i] == front + mid;
    RotatedParts(front, mid + [x] + back);
    Associates(mid + [x], back, front);
    WithoutMiddle(mid, x, back + front);
    ErasedParts(front, mid, back, hand, HandAfterErase(|ring|, hand, i));
  }

  lemma ErasedParts(front: Queue, mid: Queue, back: Queue, hand: nat, h: nat)
    requires hand == |front| && h == if mid == [] && back == [] then 0 else hand
    ensures Rotated((front + mid) + back, h) == mid + (back + front)
  {
    Associates(front, mid, back);
    if mid == [] && back == [] {
      RotatedParts([], front);
      assert (front + mid) + back == [] + front && mid + (back + front) == front + [];
    } else {
      RotatedParts(front, mid + back);
      Associates(mid, back, front);
    }
  }

  lemma ErasedBehindHand(ring: Queue, hand: nat, i: nat)
    requires i < hand <= |ring|
    ensures var q, p := Rotated(ring, hand), i + |ring| - hand;
            Rotated(ring[..i] + ring[i + 1..], HandAfterErase(|ring|, hand, i)) == q[..p] + q[p + 1..]
  {
    var q, p := Rotated(ring, hand), i + |ring| - hand;
    var erased := ring[..i] + ring[i + 1..];
    assert erased[hand - 1..] == ring[hand..];
    assert q[..p] == ring[hand..] + ring[..i];
    assert q[p + 1..] == ring[i + 1..hand];
    assert erased[..hand - 1] == ring[..i] + ring[i + 1..hand];
  }

  /** Erasing a ring node erases its key from the queue, wherever the hand stands. */
  lemma ErasedRing(ring: Queue, hand: nat, i: nat)
    requires hand <= |ring| && i < |ring| && NoDup(KeysOf(ring))
    ensures Rotated(ring[..i] + ring[i + 1..], HandAfterErase(|ring|, hand, i)) ==
            Remove(Rotated(ring, hand), ring[i].key)
  {
    var q, p := Rotated(ring, hand), QueuePosition(|ring|, hand, i);
    forall j | 0 <= j < |q| && j != p
      ensures q[j].key != q[p].key
    {
      var r := if j < |ring| - hand then j + hand else j - (|ring| - hand);
      assert q[j] == ring[r] && q[p] == ring[i] && r != i;
      assert KeysOf(ring)[r] != KeysOf(ring)[i];
    }
    RemoveAt(q, p);
    if hand <= i {
      ErasedAheadOfHand(ring, hand, i);
    } else {
      ErasedBehindHand(ring, hand, i);
    }
  }

  lemma NoDupErased<T(!new)>(s: seq<T>, i: nat)
    requires NoDup(s) && i < |s|
    ensures NoDup(s[..i] + s[i + 1..])
    ensures Elems(s[..i] + s[i + 1..]) == Elems(s) - {s[i]}
  {
    WithoutAt(s, i);
    WithoutElems(s, s[i]);
  }

  lemma ErasedKeys(ring: Queue, i: nat)
    requires i < |ring| && NoDup(KeysOf(ring))
    ensures var keys := KeysOf(ring[..i] + ring[i + 1..]);
            NoDup(keys) && Elems(keys) == Elems(KeysOf(ring)) - {ring[i].key}
  {
    NoDupErased(KeysOf(ring), i);
    assert KeysOf(ring[..i] + ring[i + 1..]) == KeysOf(ring)[..i] + KeysOf(ring)[i + 1..];
  }

  /** Clearing the bit under the hand and advancing spares the head of the queue. */
  lemma SparedRing(ring: Queue, hand: nat)
    requires hand < |ring| && ring[hand].referenced
    ensures var cleared := ring[hand := ClockEntry(ring[hand].key, false)];
            Rotated(ring, hand)[0] == ring[hand] &&
            KeysOf(cleared) == KeysOf(ring) &&
            Rotated(cleared, if hand + 1 == |ring| then 0 else hand + 1) == Spare(Rotated(ring, hand))
  {
    var cleared := ring[hand := ClockEntry(ring[hand].key, false)];
    var q := Rotated(ring, hand);
    assert Spare(q) == ring[hand + 1..] + ring[..hand] + [cleared[hand]];
    assert cleared[hand + 1..] == ring[hand + 1..] && cleared[..hand + 1] == ring[..hand] + [cleared[hand]];
  }

  /** Erasing the clear node under the hand takes the head off the queue. */
  lemma TakenRing(ring: Queue, hand: nat)
    requires hand < |ring| && NoDup(KeysOf(ring))
    ensures var taken := ring[..hand] + ring[hand + 1..];
            Rotated(ring, hand)[0] == ring[hand] &&
            Rotated(taken, if hand == |taken| then 0 else hand) == Rotated(ring, hand)[1..]
  {
    var taken := ring[..hand] + ring[hand + 1..];
    assert taken[hand..] == ring[hand + 1..] && taken[..hand] == ring[..hand];
    assert Rotated(ring, hand)[1..] == ring[hand + 1..] + ring[..hand];
  }

  /** A sweep of the ring loses the victim's key and no other. */
  lemma SweptKeys(ring: Queue, hand: nat, victim: Block, ring': Queue, hand': nat)
    requires ring != [] && hand <= |ring| && hand' <= |ring'| && NoDup(KeysOf(ring))
    requires (victim, Rotated(ring', hand')) == Sweep(Rotated(ring, hand))
    ensures Elems(KeysOf(ring')) == Elems(KeysOf(ring)) - {victim}
  {
    RotatedKeys(ring, hand);
    RotatedNoDup(ring, hand);
    SweepKeys(Rotated(ring, hand));
    RotatedKeys(ring', hand');
  }

  lemma SweptView(ring: Queue, hand: nat, victim: Block, ring': Queue, hand': nat)
    requires ring != [] && hand <= |ring| && hand' <= |ring'|
    requires (victim, Rotated(ring', hand')) == Sweep(Rotated(ring, hand))
    ensures Clock(Rotated(ring, hand)).PopVictim() == Popped(victim, Clock(Rotated(ring', hand')))
  {
    assert |KeysOf(Rotated(ring, hand))| == |ring|;
  }

  lemma RotatedNoDup(ring: Queue, hand: nat)
    requires hand <= |ring| && NoDup(KeysOf(ring))
    ensures NoDup(KeysOf(Rotated(ring, hand)))
  {
    var keys, n := KeysOf(ring), |ring|;
    RotatedKeys(ring, hand);
    forall i, j | 0 <= i < j < n ensures KeysOf(Rotated(ring, hand))[i] != KeysOf(Rotated(ring, hand))[j] {
      var i', j' := if i < n - hand then i + hand else i - (n - hand), if j < n - hand then j + hand else j - (n - hand);
      assert KeysOf(Rotated(ring, hand))[i] == keys[i'] && KeysOf(Rotated(ring, hand))[j] == keys[j'];
      assert i' < j' || j' < i';
    }
  }

  lemma RemoveUntracked(q: Queue, key: Block)
    requires key !in KeysOf(q)
    ensures Remove(q, key) == q
  {
    forall i | 0 <= i < |q| ensures q[i].key != key {
      assert q[i].key == KeysOf(q)[i];
    }
    RemoveAbsent(q, key);
  }

  /** A node inserted behind the hand is the last of the queue. */
  lemma InsertedRing(ring: Queue, hand: nat, e: ClockEntry)
    requires hand <= |ring| && NoDup(KeysOf(ring)) && e.key !in KeysOf(ring)
    ensures var more := ring[..hand] + [e] + ring[hand..];
            && NoDup(KeysOf(more)) && Elems(KeysOf(more)) == Elems(KeysOf(ring)) + {e.key}
            && Rotated(more, hand + 1) == Rotated(ring, hand) + [e]
  {
    var front, back, keys := ring[..hand], ring[hand..], KeysOf(ring);
    var more := front + [e] + back;
    RotatedParts(front + [e], back);
    Associates(back, front, [e]);
    assert KeysOf(more) == keys[..hand] + [e.key] + keys[hand..];
    assert keys == keys[..hand] + keys[hand..];
    InsertedKeys(keys[..hand], e.key, keys[hand..]);
  }

  lemma InsertedKeys(a: seq<Block>, key: Block, b: seq<Block>)
    requires NoDup(a + b) && key !in a + b
    ensures NoDup(a + [key] + b) && Elems(a + [key] + b) == Elems(a + b) + {key}
  {
    var all, before := a + [key] + b, a + b;
    forall i, j | 0 <= i < j < |all| ensures all[i] != all[j] {
      var i', j' := if i < |a| then i else i - 1, if j < |a| then j else j - 1;
      assert i != |a| ==> all[i] == before[i'];
      assert j != |a| ==> all[j] == before[j'];
    }
  }

  class ClockPolicy {
    var ring: Queue
    var hand: nat
    var index: set<Block>

    ghost predicate Valid() reads this {
      hand <= |ring| && NoDup(KeysOf(ring)) && index == Elems(KeysOf(ring))
    }

    ghost function View(): PolicyState
      reads this
      requires Valid()
    {
      Clock(Rotated(ring, hand))
    }

    constructor ()
      ensures Valid() && View() == Clock([])
    {
      ring, hand, index := [], 0, {};
    }

    method OnHit(key: Block)
      requires Valid()
      modifies this
      ensures Valid() && View() == old(View()).OnHit(key)
    {
      RotatedKeys(ring, hand);
      if key in index {
        var i := Position(ring, key);
        ring := ring[i := ClockEntry(key, true)];
        assert KeysOf(ring) == old(KeysOf(ring));
        MarkedRing(old(ring), hand, i);
      }
    }

    method OnInsert(key: Block)
      requires Valid()
      modifies this
      ensures Valid() && View() == old(View()).OnInsert(key)
    {
      RotatedKeys(ring, hand);
      if key in index {
        return;
      }
      InsertedRing(ring, hand, ClockEntry(key, false));
      ring := ring[..hand] + [ClockEntry(key, false)] + ring[hand..];
      hand := hand + 1;
      index := index + {key};
    }

    method OnErase(key: Block)
      requires Valid()
      modifies this
      ensures Valid() && View() == old(View()).OnErase(key)
    {
      RotatedKeys(ring, hand);
      if key !in index {
        RemoveUntracked(Rotated(ring, hand), key);
        return;
      }
      var i := Position(ring, key);
      ErasedRing(ring, hand, i);
      ErasedKeys(ring, i);
      hand := HandAfterErase(|ring|, hand, i);
      ring := ring[..i] + ring[i + 1..];
      index := index - {key};
    }

    method PopVictim() returns (victim: Option<Block>)
      requires Valid()
      modifies this
      ensures Valid()
      ensures match old(View()).PopVictim()
              case Nothing => victim == None && View() == old(View())
              case Popped(v, rest) => victim == Some(v) && View() == rest
    {
      if ring == [] {
        return None;
      }
      var v, ring', hand' := SweepRing(ring, hand);
      SweptKeys(ring, hand, v, ring', hand');
      SweptView(ring, hand, v, ring', hand');
      ring, hand, index := ring', hand', index - {v};
      return Some(v);
    }

    /** The guarded sweep: at most 2n + 1 looks, and never a failed one on a non-empty ring. */
    static method SweepRing(ring0: Queue, hand0: nat) returns (victim: Block, ring: Queue, hand: nat)
      requires ring0 != [] && hand0 <= |ring0| && NoDup(KeysOf(ring0))
      ensures hand <= |ring| && NoDup(KeysOf(ring))
      ensures (victim, Rotated(ring, hand)) == Sweep(Rotated(ring0, hand0))
    {
      ring, hand := ring0, hand0;
      ghost var before := Rotated(ring, hand);
      if hand == |ring| {
        hand := 0;
        assert Rotated(ring, hand) == before;
      }
      for guard := 0 to |ring0| * 2 + 1
        invariant |ring| == |ring0| && hand < |ring| && KeysOf(ring) == KeysOf(ring0)
        invariant ReferencedCount(Rotated(ring, hand)) == ReferencedCount(before) - guard
        invariant Sweep(Rotated(ring, hand)) == Sweep(before)
      {
        if !ring[hand].referenced {
          TakenRing(ring, hand);
          ErasedKeys(ring, hand);
          victim := ring[hand].key;
          ring := ring[..hand] + ring[hand + 1..];
          hand := if hand == |ring| then 0 else hand;
          return;
        }
        SparedRing(ring, hand);
        ring := ring[hand := ClockEntry(ring[hand].key, false)];
        hand := if hand + 1 == |ring| then 0 else hand + 1;
      }
      assert false;
    }

    method Clear()
      modifies this
      ensures Valid() && View() == Clock([])
    {
      ring, hand, index := [], 0, {};
    }
  }

  lemma RotatedKeys(ring: Queue, hand: nat)
    requires hand <= |ring|
    ensures KeysOf(Rotated(ring, hand)) == KeysOf(ring)[hand..] + KeysOf(ring)[..hand]
    ensures Elems(KeysOf(Rotated(ring, hand))) == Elems(KeysOf(ring))
  {
    assert KeysOf(ring) == KeysOf(ring)[..hand] + KeysOf(ring)[hand..];
  }

  lemma MarkedRing(ring: Queue, hand: nat, i: nat)
    requires hand <= |ring| && i < |ring| && NoDup(KeysOf(ring))
    ensures Rotated(ring[i := ClockEntry(ring[i].key, true)], hand) == Mark(Rotated(ring, hand), ring[i].key)
  {
    assert forall j :: 0 <= j < |ring| && j != i ==> KeysOf(ring)[j] != KeysOf(ring)[i];
  }
}
