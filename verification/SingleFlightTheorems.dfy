/** What the single-flight protocol promises its callers, over every run. */
module SingleFlightTheorems {
  import opened Sequences
  import opened SingleFlight

  ghost predicate Execution(states: seq<State>, actions: seq<Action>) {
    Run(states, actions) && Init(states[0])
  }

  /** Both positions are inside a factory call, or about to publish one, for the same key. */
  predicate MakesFor(p: PC, q: PC) {
    (p.Creating? || p.Created?) && (q.Creating? || q.Created?) && p.key == q.key
  }

  lemma RegisteredHasParticipant(s: State, k: Key)
    requires Inv(s) && k in s.ongoing
    ensures exists t :: t in s.pcs && s.pcs[t].InFlight() && s.pcs[t].key == k
  {
    assert KeyOk(s, k) && TokenOk(s, s.ongoing[k]);
    var t :| t in Participants(s, s.ongoing[k]);
    assert ThreadOk(s, t) && KeyOk(s, s.pcs[t].key);
  }

  /** A joining thread never unregisters the token it found. */
  lemma JoinKeepsRegistrations(s: State, t: Thread, key: Key)
    requires Inv(s) && Enabled(s, Join(t, key))
    ensures Apply(s, Join(t, key)).ongoing == s.ongoing
  {
    assert KeyOk(s, key);
  }

  /**
    In every reachable state: at most one factory per key is in progress, a token's
    count is the number of threads holding it, and a key nobody is in flight on has
    no token.
   */
  lemma Safety(states: seq<State>, actions: seq<Action>, i: nat)
    requires Execution(states, actions) && i < |states|
    ensures var s := states[i];
            && (forall t, u | t in s.pcs && u in s.pcs && MakesFor(s.pcs[t], s.pcs[u]) :: t == u)
            && (forall tok :: tok in s.tokens ==> s.tokens[tok].count == |Participants(s, tok)|)
            && (forall k :: k in s.ongoing ==> exists t :: t in s.pcs && s.pcs[t].InFlight() && s.pcs[t].key == k)
  {
    var s := states[i];
    RunInv(states, actions, i);
    forall t | t in s.pcs ensures ThreadOk(s, t) {}
    forall tok | tok in s.tokens ensures s.tokens[tok].count == |Participants(s, tok)| {
      assert TokenOk(s, tok);
    }
    forall k | k in s.ongoing
      ensures exists t :: t in s.pcs && s.pcs[t].InFlight() && s.pcs[t].key == k
    {
      RegisteredHasParticipant(s, k);
    }
  }

  /** A token is unregistered only by its own last participant. */
  lemma EraseRemovesOwnToken(s: State, a: Action, k: Key)
    requires Inv(s) && Enabled(s, a) && k in s.ongoing && k !in Apply(s, a).ongoing
    ensures (a.Publish? || a.Wake?) && s.pcs[a.t].key == k && s.pcs[a.t].token == s.ongoing[k]
    ensures Participants(s, s.ongoing[k]) == {a.t}
  {
    if a.Join? {
      JoinKeepsRegistrations(s, a.t, a.key);
    } else {
      assert ThreadOk(s, a.t);
      var tok := s.pcs[a.t].token;
      assert TokenOk(s, tok);
      forall u | u in Participants(s, tok) ensures u == a.t {
        LastOneOut(s, a.t, tok, u);
      }
    }
  }

  // Every participant of a token gets the result its creator produced.

  ghost predicate Bound(s: State, c: Thread, tok: TokenId, result: Result) {
    || (c in s.pcs && s.pcs[c].Created? && s.pcs[c].token == tok && s.pcs[c].result == result)
    || (tok in s.tokens && s.tokens[tok].settled && s.tokens[tok].Outcome() == result)
  }

  lemma SettledIsFinal(s: State, a: Action, tok: TokenId)
    requires Inv(s) && Enabled(s, a) && tok in s.tokens && s.tokens[tok].settled
    ensures var s' := Apply(s, a);
            tok in s'.tokens && s'.tokens[tok].settled &&
            s'.tokens[tok].Outcome() == s.tokens[tok].Outcome() &&
            s'.tokens[tok].Published() == s.tokens[tok].Published()
  {
    if a.Publish? {
      assert ThreadOk(s, a.t);
    }
  }

  lemma StaysBound(s: State, a: Action, c: Thread, tok: TokenId, result: Result)
    requires Inv(s) && Enabled(s, a) && Bound(s, c, tok, result)
    ensures Bound(Apply(s, a), c, tok, result)
  {
    if tok in s.tokens && s.tokens[tok].settled && s.tokens[tok].Outcome() == result {
      SettledIsFinal(s, a, tok);
    } else {
      assert ThreadOk(s, c) && TokenOk(s, tok);
    }
  }

  lemma {:induction false} BoundFrom(
    states: seq<State>, actions: seq<Action>, i: nat, j: nat, c: Thread, tok: TokenId, result: Result)
    requires Execution(states, actions) && i <= j < |states| && Bound(states[i], c, tok, result)
    ensures Bound(states[j], c, tok, result)
  {
    if i < j {
      BoundFrom(states, actions, i, j - 1, c, tok, result);
      RunInv(states, actions, j - 1);
      StaysBound(states[j - 1], actions[j - 1], c, tok, result);
    }
  }

  lemma {:induction false} SettledFrom(states: seq<State>, actions: seq<Action>, i: nat, j: nat, tok: TokenId)
    requires Execution(states, actions) && i <= j < |states|
    requires tok in states[i].tokens && states[i].tokens[tok].settled
    ensures tok in states[j].tokens && states[j].tokens[tok].settled
    ensures states[j].tokens[tok].Outcome() == states[i].tokens[tok].Outcome()
  {
    if i < j {
      SettledFrom(states, actions, i, j - 1, tok);
      RunInv(states, actions, j - 1);
      SettledIsFinal(states[j - 1], actions[j - 1], tok);
    }
  }

  /** Whatever the creator's factory did, every thread that finished through its token reports exactly that. */
  lemma EveryoneGetsTheCreatorsResult(
    states: seq<State>, actions: seq<Action>, i: nat, c: Thread, j: nat, w: Thread)
    requires Execution(states, actions) && i < |states| && j < |states|
    requires c in states[i].pcs && states[i].pcs[c].Created?
    requires w in states[j].pcs && states[j].pcs[w].Finished? && states[j].pcs[w].via == Some(states[i].pcs[c].token)
    ensures states[j].pcs[w].result == states[i].pcs[c].result
  {
    var tok, result := states[i].pcs[c].token, states[i].pcs[c].result;
    RunInv(states, actions, i);
    RunInv(states, actions, j);
    assert ThreadOk(states[j], w);
    assert ThreadOk(states[i], c);
    if j <= i {
      SettledFrom(states, actions, j, i, tok);
    } else {
      BoundFrom(states, actions, i, j, c, tok, result);
      if c in states[j].pcs && states[j].pcs[c].Created? && states[j].pcs[c].token == tok {
        assert ThreadOk(states[j], c);
      }
    }
  }

  // What a thread reports that found its value in the cache, and who can come to report null.

  /** The thread was idle at step `j`, and what it reports lay in the cache under its key. */
  ghost predicate FoundAt(s: State, t: Thread, pc: PC) {
    pc.Finished? && s.At(t, Idle) && pc.key in s.cache && s.cache[pc.key] != Null &&
    pc.result == Returned(s.cache[pc.key])
  }

  /** Only a hit finishes a thread without a token. */
  lemma FinishesWithoutToken(s: State, a: Action, t: Thread)
    requires Enabled(s, a) && t in Apply(s, a).pcs && Apply(s, a).pcs[t].Finished? && Apply(s, a).pcs[t].via.None?
    ensures t in s.pcs && (s.pcs[t] == Apply(s, a).pcs[t] || FoundAt(s, t, Apply(s, a).pcs[t]))
  {
  }

  /** A thread that finishes without a token reports the non-null value that was cached when it left `Idle`. */
  lemma {:induction false} HitReportsCachedValue(states: seq<State>, actions: seq<Action>, i: nat, t: Thread) returns (j: nat)
    requires Execution(states, actions) && i < |states| && t in states[i].pcs
    requires states[i].pcs[t].Finished? && states[i].pcs[t].via.None?
    ensures j < i && FoundAt(states[j], t, states[i].pcs[t])
    ensures forall m :: j < m <= i ==> states[m].At(t, states[i].pcs[t])
  {
    FinishesWithoutToken(states[i - 1], actions[i - 1], t);
    if states[i - 1].pcs[t] == states[i].pcs[t] {
      j := HitReportsCachedValue(states, actions, i - 1, t);
    } else {
      j := i - 1;
    }
  }

  /** A cached value can be found: a hit is enabled whenever a non-null value is cached, and reports it. */
  lemma CachedValueIsFound(s: State, t: Thread, key: Key)
    requires s.At(t, Idle) && key in s.cache && s.cache[key] != Null
    ensures Enabled(s, Hit(t, key)) && Apply(s, Hit(t, key)).pcs[t] == Finished(key, Returned(s.cache[key]), None)
    ensures !Enabled(s, Join(t, key)) && forall id :: !Enabled(s, Create(t, key, id))
  {
  }

  /** A finished thread can return, and is then free to call again. */
  lemma FinishedCanCallAgain(s: State, t: Thread)
    requires t in s.pcs && s.pcs[t].Finished?
    ensures Enabled(s, Return(t)) && Apply(s, Return(t)).At(t, Idle)
    ensures forall u :: u in s.pcs && u != t ==> Apply(s, Return(t)).At(u, s.pcs[u])
  {
  }

  /** A thread reports null only if it ran the factory itself and the factory returned null. */
  ghost predicate NullIsOwn(s: State, t: Thread)
    requires t in s.pcs
  {
    s.pcs[t].Finished? && s.pcs[t].result == Returned(Null) ==>
      && s.pcs[t].via.Some? && s.pcs[t].via.value in s.tokens
      && var tok := s.tokens[s.pcs[t].via.value];
         tok.creator == t && tok.settled && tok.Outcome() == Returned(Null)
  }

  lemma StepNullIsOwn(s: State, a: Action, t: Thread)
    requires Inv(s) && Enabled(s, a) && t in s.pcs && NullIsOwn(s, t)
    ensures t in Apply(s, a).pcs && NullIsOwn(Apply(s, a), t)
  {
    ThreadSet(s, a);
    assert ThreadOk(s, t);
    if Apply(s, a).pcs[t] == s.pcs[t] {
      if s.pcs[t].Finished? && s.pcs[t].result == Returned(Null) {
        SettledIsFinal(s, a, s.pcs[t].via.value);
        SameCreator(s, a, s.pcs[t].via.value);
      }
    } else if s.pcs[t].InFlight() {
      assert TokenOk(s, s.pcs[t].token);
    }
  }

  lemma SameCreator(s: State, a: Action, tok: TokenId)
    requires Enabled(s, a) && tok in s.tokens
    ensures tok in Apply(s, a).tokens && Apply(s, a).tokens[tok].creator == s.tokens[tok].creator
  {
  }

  lemma ThreadSet(s: State, a: Action)
    requires Enabled(s, a)
    ensures Apply(s, a).pcs.Keys == s.pcs.Keys
  {
  }

  /** In every reachable state, whoever reports null ran a factory that returned null. */
  lemma {:induction false} NullOnlyFromOwnFactory(states: seq<State>, actions: seq<Action>, i: nat, t: Thread)
    requires Execution(states, actions) && i < |states| && t in states[i].pcs
    ensures NullIsOwn(states[i], t)
  {
    if i > 0 {
      ThreadSet(states[i - 1], actions[i - 1]);
      NullOnlyFromOwnFactory(states, actions, i - 1, t);
      RunInv(states, actions, i - 1);
      StepNullIsOwn(states[i - 1], actions[i - 1], t);
    }
  }

  /** A published value is in the cache, and of the other keys only evicted ones change. */
  lemma PublishedValueIsCached(s: State, t: Thread, evicted: set<Key>)
    requires Enabled(s, Publish(t, evicted)) && s.pcs[t].result.Returned?
    ensures var s' := Apply(s, Publish(t, evicted));
            && s.pcs[t].key in s'.cache && s'.cache[s.pcs[t].key] == s.pcs[t].result.slot
            && forall k :: k != s.pcs[t].key ==>
                 (k in s'.cache <==> k in s.cache && k !in evicted) && (k in s'.cache ==> s'.cache[k] == s.cache[k])
  {
  }

  // Waiters of a published token can always move.

  /** A waiter of a published token is awake, and its next step returns the outcome. */
  lemma PublishedWaiterCanReturn(s: State, w: Thread)
    requires Inv(s) && w in s.pcs && (s.pcs[w].Asleep? || s.pcs[w].Awake?)
    requires s.pcs[w].token in s.tokens && s.tokens[s.pcs[w].token].Published()
    ensures s.pcs[w].Awake? && Enabled(s, Wake(w))
    ensures Apply(s, Wake(w)).pcs[w] ==
            Finished(s.pcs[w].key, s.tokens[s.pcs[w].token].Outcome(), Some(s.pcs[w].token))
  {
    assert ThreadOk(s, w);
  }

  /** No other action takes that step away. */
  lemma WakeStaysEnabled(s: State, w: Thread, a: Action)
    requires Inv(s) && w in s.pcs && s.pcs[w].Awake? && Enabled(s, a) && a != Wake(w)
    requires s.pcs[w].token in s.tokens && s.tokens[s.pcs[w].token].Published()
    ensures var s' := Apply(s, a);
            s'.pcs[w] == s.pcs[w] && Enabled(s', Wake(w)) && s'.tokens[s.pcs[w].token].Published()
  {
    assert TokenOk(s, s.pcs[w].token);
    SettledIsFinal(s, a, s.pcs[w].token);
  }

  /** The creator's publication of a value or an exception releases every sleeper on its token. */
  lemma PublicationWakesEveryone(s: State, t: Thread, evicted: set<Key>, w: Thread)
    requires Inv(s) && Enabled(s, Publish(t, evicted)) && s.pcs[t].result != Returned(Null)
    requires w in s.pcs && w != t && s.pcs[w].On(s.pcs[t].token)
    ensures var s' := Apply(s, Publish(t, evicted));
            s'.pcs[w].Awake? && s'.tokens[s'.pcs[w].token].Published() &&
            s'.tokens[s'.pcs[w].token].Outcome() == s.pcs[t].result
  {
    assert ThreadOk(s, t) && ThreadOk(s, w) && TokenOk(s, s.pcs[t].token);
  }

  // A factory that returns null strands its waiters.

  ghost predicate Stranded(s: State, w: Thread, tok: TokenId) {
    && tok in s.tokens && s.tokens[tok].settled && !s.tokens[tok].Published()
    && w in s.pcs && (s.pcs[w].Asleep? || s.pcs[w].Awake?) && s.pcs[w].token == tok
  }

  lemma StaysStranded(s: State, a: Action, w: Thread, tok: TokenId)
    requires Inv(s) && Enabled(s, a) && Stranded(s, w, tok)
    ensures Stranded(Apply(s, a), w, tok)
  {
    SettledIsFinal(s, a, tok);
  }

  /** Once the creator has published null, its waiters never return, in any continuation. */
  lemma {:induction false} NullStrandsWaiters(
    states: seq<State>, actions: seq<Action>, i: nat, j: nat, w: Thread, tok: TokenId)
    requires Execution(states, actions) && i <= j < |states| && Stranded(states[i], w, tok)
    ensures Stranded(states[j], w, tok)
  {
    if i < j {
      NullStrandsWaiters(states, actions, i, j - 1, w, tok);
      RunInv(states, actions, j - 1);
      StaysStranded(states[j - 1], actions[j - 1], w, tok);
    }
  }

  /** A waiter is stranded by its creator's publication exactly when the factory returned null. */
  lemma StrandedIffNull(s: State, t: Thread, evicted: set<Key>, w: Thread)
    requires Inv(s) && Enabled(s, Publish(t, evicted))
    requires w in s.pcs && w != t && s.pcs[w].On(s.pcs[t].token)
    ensures Stranded(Apply(s, Publish(t, evicted)), w, s.pcs[t].token) <==> s.pcs[t].result == Returned(Null)
  {
    assert ThreadOk(s, t) && ThreadOk(s, w) && TokenOk(s, s.pcs[t].token);
  }

  /** Extend a run by one enabled action. */
  lemma Extend(states: seq<State>, actions: seq<Action>, a: Action) returns (states': seq<State>, actions': seq<Action>)
    requires Execution(states, actions) && Enabled(states[|actions|], a)
    ensures Execution(states', actions') && states'[0] == states[0]
    ensures states'[|actions'|] == Apply(states[|actions|], a)
  {
    states', actions' := states + [Apply(states[|actions|], a)], actions + [a];
  }

  /** From every initial state, any two threads and any missing key have a run that strands the second. */
  lemma NullFactoryStrands(s: State, t: Thread, w: Thread, key: Key, id: TokenId)
    returns (states: seq<State>, actions: seq<Action>)
    requires Init(s) && t in s.pcs && w in s.pcs && t != w && s.Missing(key)
    ensures Execution(states, actions) && states[0] == s && Stranded(states[|actions|], w, id)
  {
    states, actions := Extend([s], [], Create(t, key, id));
    states, actions := Extend(states, actions, Join(w, key));
    states, actions := Extend(states, actions, RunFactory(t, Returned(Null)));
    states, actions := Extend(states, actions, Publish(t, {}));
  }

  /** Whoever misses the key while its token is still registered is stranded with the others. */
  lemma LatecomersAreStranded(s: State, w: Thread, tok: TokenId, t: Thread, key: Key)
    requires Inv(s) && Stranded(s, w, tok) && Enabled(s, Join(t, key)) && s.ongoing[key] == tok
    ensures Stranded(Apply(s, Join(t, key)), t, tok)
  {
  }

  // A throwing factory leaves no trace once its participants are gone.

  lemma ThrowLeavesNoTrace(s: State, t: Thread, evicted: set<Key>)
    requires Inv(s) && Enabled(s, Publish(t, evicted)) && s.pcs[t].result.Threw?
    ensures var s' := Apply(s, Publish(t, evicted));
            s'.cache == s.cache &&
            (Participants(s, s.pcs[t].token) == {t} <==> s.pcs[t].key !in s'.ongoing)
  {
    assert ThreadOk(s, t) && TokenOk(s, s.pcs[t].token);
    if s.pcs[t].key !in Apply(s, Publish(t, evicted)).ongoing {
      EraseRemovesOwnToken(s, Publish(t, evicted), s.pcs[t].key);
    }
  }

  /** With nobody in flight on a key, a miss can only start a fresh factory. */
  lemma DrainedMissRunsFreshFactory(s: State, t: Thread, key: Key, id: TokenId)
    requires Inv(s) && s.At(t, Idle) && s.Missing(key) && id !in s.tokens
    requires forall u :: u in s.pcs && s.pcs[u].InFlight() ==> s.pcs[u].key != key
    ensures !Enabled(s, Hit(t, key)) && !Enabled(s, Join(t, key)) && Enabled(s, Create(t, key, id))
    ensures Apply(s, Create(t, key, id)).pcs[t] == Creating(key, id)
  {
    if key in s.ongoing {
      RegisteredHasParticipant(s, key);
    }
  }
}
