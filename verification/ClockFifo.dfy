/** CLOCK degenerates to FIFO when nothing is re-referenced. */
module ClockFifo {
  import opened Blocks
  import opened Sequences
  import opened SecondChance
  import opened Policies

  datatype PolicyOp = Hit(key: Block) | Insert(key: Block) | Erase(key: Block) | Evict | Reset

  function Apply(p: PolicyState, op: PolicyOp): PolicyState {
    match op
    case Hit(key) => p.OnHit(key)
    case Insert(key) => p.OnInsert(key)
    case Erase(key) => p.OnErase(key)
    case Evict => (match p.PopVictim() case Nothing => p case Popped(_, rest) => rest)
    case Reset => p.Emptied()
  }

  /** The victims handed out over a run, in order. */
  function Victims(p: PolicyState, ops: seq<PolicyOp>): seq<Block>
    decreases |ops|
  {
    if ops == [] then []
    else
      var here := if ops[0].Evict? && p.PopVictim().Popped? then [p.PopVictim().victim] else [];
      here + Victims(Apply(p, ops[0]), ops[1..])
  }

  ghost predicate InStep(clock: PolicyState, fifo: PolicyState) {
    clock.Clock? && fifo.Fifo? && NoDup(fifo.order) &&
    KeysOf(clock.queue) == Reverse(fifo.order) &&
    forall i :: 0 <= i < |clock.queue| ==> !clock.queue[i].referenced
  }

  lemma {:induction false} ReverseWithout<T(!new)>(s: seq<T>, x: T)
    ensures Without(Reverse(s), x) == Reverse(Without(s, x))
  {
    if s != [] {
      assert Reverse(s) == Reverse(s[1..]) + [s[0]];
      WithoutConcat(Reverse(s[1..]), [s[0]], x);
      ReverseWithout(s[1..], x);
      var rest := Without(s[1..], x);
      assert Reverse([s[0]] + rest) == Reverse(rest) + [s[0]];
      assert Without([s[0]], x) == if s[0] == x then [] else [s[0]];
    }
  }

  lemma {:induction false} RemoveKeepsClear(q: Queue, key: Block)
    requires forall i :: 0 <= i < |q| ==> !q[i].referenced
    ensures forall i :: 0 <= i < |Remove(q, key)| ==> !Remove(q, key)[i].referenced
  {
    if q != [] {
      RemoveKeepsClear(q[1..], key);
    }
  }

  lemma InsertInStep(clock: PolicyState, fifo: PolicyState, key: Block)
    requires InStep(clock, fifo)
    ensures InStep(clock.OnInsert(key), fifo.OnInsert(key))
  {
    var n := |fifo.order|;
    assert key in KeysOf(clock.queue) <==> key in fifo.order by {
      assert forall i :: 0 <= i < n ==> KeysOf(clock.queue)[n - 1 - i] == fifo.order[i];
    }
    if key !in fifo.order {
      PrependNoDup(key, fifo.order);
      assert KeysOf(clock.queue + [ClockEntry(key, false)]) == Reverse([key] + fifo.order);
    }
  }

  lemma EraseInStep(clock: PolicyState, fifo: PolicyState, key: Block)
    requires InStep(clock, fifo)
    ensures InStep(clock.OnErase(key), fifo.OnErase(key))
  {
    RemoveKeys(clock.queue, key);
    WithoutElems(fifo.order, key);
    ReverseWithout(fifo.order, key);
    RemoveKeepsClear(clock.queue, key);
  }

  /** With every bit clear, the head of the queue is the back of the list. */
  lemma EvictInStep(clock: PolicyState, fifo: PolicyState)
    requires InStep(clock, fifo) && fifo.order != []
    ensures var c, f := clock.PopVictim(), fifo.PopVictim();
            c.Popped? && f.Popped? && c.victim == f.victim && InStep(c.rest, f.rest)
  {
    var n := |fifo.order|;
    assert KeysOf(clock.queue)[0] == fifo.order[n - 1];
    WithoutLast(fifo.order);
    assert KeysOf(clock.queue[1..]) == Reverse(fifo.order[..n - 1]);
  }

  lemma StepInStep(clock: PolicyState, fifo: PolicyState, op: PolicyOp)
    requires InStep(clock, fifo) && !op.Hit?
    ensures InStep(Apply(clock, op), Apply(fifo, op))
    ensures op.Evict? && clock.PopVictim().Popped? ==>
              fifo.PopVictim().Popped? && fifo.PopVictim().victim == clock.PopVictim().victim
    ensures clock.PopVictim().Popped? <==> fifo.PopVictim().Popped?
  {
    if fifo.order != [] {
      EvictInStep(clock, fifo);
    }
    match op
    case Insert(key) => InsertInStep(clock, fifo, key);
    case Erase(key) => EraseInStep(clock, fifo, key);
    case Evict =>
    case Reset =>
  }

  lemma {:induction false} SameVictims(clock: PolicyState, fifo: PolicyState, ops: seq<PolicyOp>)
    requires InStep(clock, fifo) && forall i :: 0 <= i < |ops| ==> !ops[i].Hit?
    ensures Victims(clock, ops) == Victims(fifo, ops)
    decreases |ops|
  {
    if ops != [] {
      StepInStep(clock, fifo, ops[0]);
      SameVictims(Apply(clock, ops[0]), Apply(fifo, ops[0]), ops[1..]);
    }
  }

  /** Over every hit-free run from empty, CLOCK evicts exactly what FIFO evicts. */
  lemma ClockWithoutHitsIsFifo(ops: seq<PolicyOp>)
    requires forall i :: 0 <= i < |ops| ==> !ops[i].Hit?
    ensures Victims(Clock([]), ops) == Victims(Fifo([]), ops)
  {
    SameVictims(Clock([]), Fifo([]), ops);
  }
}
