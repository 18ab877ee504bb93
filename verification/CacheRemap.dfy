/** A whole block-size remap of an undisturbed cache: drain, re-cut, and put everything back. */
module CacheRemap {
  import opened Blocks
  import opened Grid
  import opened CacheSystem
  import R = RemapEntries

  /** The store that putting the listed entries one after another leaves, when nothing is declined. */
  function PutAll(store: Store, out: seq<R.Entry>): Store
    decreases |out|
  {
    if out == [] then store else PutAll(store[out[0].0 := out[0].1], out[1..])
  }

  ghost predicate Steps(remote: Remote, states: seq<System>, actions: seq<Action>) {
    |states| == |actions| + 1 && forall i :: 0 <= i < |actions| ==> StepAt(remote, states, actions, i)
  }

  ghost predicate StepAt(remote: Remote, states: seq<System>, actions: seq<Action>, i: nat)
    requires |states| == |actions| + 1 && i < |actions|
  {
    Enabled(remote, states[i], actions[i]) && states[i + 1] == Apply(remote, states[i], actions[i])
  }

  /** One step in front of a run. */
  lemma StepThen(remote: Remote, s: System, a: Action, states: seq<System>, actions: seq<Action>)
    requires Enabled(remote, s, a) && Steps(remote, states, actions) && states[0] == Apply(remote, s, a)
    ensures Steps(remote, [s] + states, [a] + actions)
  {
    var states', actions' := [s] + states, [a] + actions;
    forall i | 0 <= i < |actions'| ensures StepAt(remote, states', actions', i) {
      if i > 0 {
        assert StepAt(remote, states, actions, i - 1);
      }
    }
  }

  /** One run after another. */
  lemma {:induction false} RunThen(remote: Remote, s1: seq<System>, a1: seq<Action>, s2: seq<System>, a2: seq<Action>)
    requires Steps(remote, s1, a1) && Steps(remote, s2, a2) && s1[|a1|] == s2[0]
    ensures Steps(remote, s1 + s2[1..], a1 + a2)
  {
    var states, actions := s1 + s2[1..], a1 + a2;
    forall i | 0 <= i < |actions| ensures StepAt(remote, states, actions, i) {
      if i < |a1| {
        assert StepAt(remote, s1, a1, i);
      } else {
        assert StepAt(remote, s2, a2, i - |a1|);
        assert states[i] == s2[i - |a1|] && states[i + 1] == s2[i - |a1| + 1];
      }
    }
  }

  /** Putting every pending entry back. */
  lemma {:induction false} RestoreAll(remote: Remote, s: System) returns (states: seq<System>, actions: seq<Action>)
    ensures Steps(remote, states, actions) && states[0] == s
    ensures states[|actions|] == System(PutAll(s.store, s.pending), [], s.active)
    decreases |s.pending|
  {
    if s.pending == [] {
      states, actions := [s], [];
    } else {
      var e := s.pending[0];
      var a := Restore(0, s.store[e.0 := e.1]);
      var s' := Apply(remote, s, a);
      assert s'.pending == s.pending[1..];
      states, actions := RestoreAll(remote, s');
      StepThen(remote, s, a, states, actions);
      states, actions := [s] + states, [a] + actions;
    }
  }

  /** `taken` lists the store. */
  ghost predicate Listing(taken: seq<R.Entry>, store: Store) {
    forall e :: e in taken <==> e.0 in store && store[e.0] == e.1
  }

  /** Drain, remap and restore. */
  lemma RemapCycle(remote: Remote, s: System, taken: seq<R.Entry>, block: nat, sizes: map<string, nat>,
                   out: seq<R.Entry>) returns (states: seq<System>, actions: seq<Action>)
    requires s.pending == [] && Listing(taken, s.store)
    requires if block == 0 then out == [] else R.IsRemapOf(taken, block, sizes, out)
    ensures Steps(remote, states, actions) && states[0] == s
    ensures states[|actions|] == System(PutAll(map[], out), [], s.active)
  {
    var a := Drain(taken, block, sizes, out);
    var s' := Apply(remote, s, a);
    assert s'.pending == out;
    states, actions := RestoreAll(remote, s');
    StepThen(remote, s, a, states, actions);
    states, actions := [s] + states, [a] + actions;
  }

  lemma {:induction false} PutAllHolds(store: Store, out: seq<R.Entry>, k: Block)
    requires R.OnePerStart(out) && forall e :: e in out ==> e.0 !in store
    ensures k in PutAll(store, out) <==> k in store || exists e :: e in out && e.0 == k
    ensures k in store ==> PutAll(store, out)[k] == store[k]
    ensures forall e :: e in out && e.0 == k ==> PutAll(store, out)[k] == e.1
    decreases |out|
  {
    if out != [] {
      var x, rest := out[0], out[1..];
      forall e | e in rest ensures e.0 != x.0 {
        var i :| 0 <= i < |rest| && rest[i] == e;
        assert out[i + 1] == e;
      }
      PutAllHolds(store[x.0 := x.1], rest, k);
      forall e | e in out ensures e == x || e in rest {
      }
    }
  }

  /** A re-cut cache lists exactly the entries put back. */
  lemma PutBackListing(out: seq<R.Entry>)
    requires R.OnePerStart(out)
    ensures Listing(out, PutAll(map[], out))
  {
    var store := PutAll(map[], out);
    forall e ensures e in out <==> e.0 in store && store[e.0] == e.1 {
      PutAllHolds(map[], out, e.0);
    }
  }

  lemma SameListing(taken: seq<R.Entry>, a: Store, b: Store)
    requires Listing(taken, a) && Listing(taken, b)
    ensures a == b
  {
    forall k | k in a ensures k in b && b[k] == a[k] {
      assert (k, a[k]) in taken;
    }
    forall k | k in b ensures k in a {
      assert (k, b[k]) in taken;
    }
  }

  /**
    An undisturbed cache on a fixed grid that is remapped to a divisor of its block size and back,
    whatever order its entries are listed in, holds exactly what it held.
   */
  lemma RemapAndBackRestoresStore(
    remote: Remote, s: System, taken: seq<R.Entry>, coarse: nat, fine: nat, out: seq<R.Entry>, listed: seq<R.Entry>,
    back: seq<R.Entry>) returns (states: seq<System>, actions: seq<Action>)
    requires coarse > 0 && fine > 0 && OnGrid(coarse, fine) && s.pending == [] && Listing(taken, s.store)
    requires R.ReaderLayout(taken, coarse) && R.IsRemapOf(taken, fine, map[], out)
    requires R.OnePerStart(listed) && Listing(listed, PutAll(map[], out)) && R.IsRemapOf(listed, coarse, map[], back)
    ensures Steps(remote, states, actions) && states[0] == s && states[|actions|] == s
  {
    var s1, a1 := RemapCycle(remote, s, taken, fine, map[], out);
    PutBackListing(out);
    var mid := s1[|a1|];
    forall e ensures e in listed <==> e in out {
    }
    var s2, a2 := RemapCycle(remote, mid, listed, coarse, map[], back);
    RunThen(remote, s1, a1, s2, a2);
    states, actions := s1 + s2[1..], a1 + a2;
    forall e ensures e in back <==> e in taken {
      R.RemapThereAndBack(taken, coarse, fine, out, listed, back, e);
    }
    PutBackListing(back);
    SameListing(taken, s.store, PutAll(map[], back));
    assert states[|actions|] == s2[|a2|];
  }
}
