/**
  The single-flight `GetOrCreate` protocol as a step system over any number of threads.
  Each action is one critical section, or the factory call between two of them.
 */
module SingleFlight {
  import opened Sequences

  type Thread = nat
  type TokenId = nat
  type Key = string

  /** A shared pointer: null or a value. */
  datatype Slot = Null | Ptr(value: int)
  datatype Result = Returned(slot: Slot) | Threw(error: string)

  /**
    `creator` records who runs the factory, and `settled` that it has left its second
    critical section; the protocol itself reads neither.
   */
  datatype Token = Token(
    key: Key, val: Slot, eptr: Option<string>, count: int, creator: Thread, settled: bool)
  {
    /** The predicate the waiters' condition variable tests. */
    predicate Published() {
      val != Null || eptr.Some?
    }

    function Outcome(): Result {
      if eptr.Some? then Threw(eptr.value) else Returned(val)
    }
  }

  datatype PC =
    | Idle
    | Asleep(key: Key, token: TokenId)
    | Awake(key: Key, token: TokenId)
    | Creating(key: Key, token: TokenId)
    | Created(key: Key, token: TokenId, result: Result)
    | Finished(key: Key, result: Result, via: Option<TokenId>)
  {
    predicate InFlight() {
      Asleep? || Awake? || Creating? || Created?
    }

    predicate On(tok: TokenId) {
      InFlight() && token == tok
    }

    predicate Creates(tok: TokenId) {
      (Creating? || Created?) && token == tok
    }
  }

  datatype State = State(
    cache: map<Key, Slot>, ongoing: map<Key, TokenId>, tokens: map<TokenId, Token>, pcs: map<Thread, PC>)
  {
    /** A cached null reads like an absent entry. */
    predicate Missing(key: Key) {
      key !in cache || cache[key] == Null
    }

    predicate At(t: Thread, pc: PC) {
      t in pcs && pcs[t] == pc
    }
  }

  datatype Action =
    | Hit(t: Thread, key: Key)
    | Join(t: Thread, key: Key)
    | Create(t: Thread, key: Key, id: TokenId)
    | RunFactory(t: Thread, result: Result)
    | Publish(t: Thread, evicted: set<Key>)
    | Wake(t: Thread)
    | Spurious(t: Thread)
    | Return(t: Thread)
    | OtherCacheUse(cache: map<Key, Slot>)

  predicate Enabled(s: State, a: Action) {
    match a
    case Hit(t, key) => s.At(t, Idle) && !s.Missing(key)
    case Join(t, key) => s.At(t, Idle) && s.Missing(key) && key in s.ongoing && s.ongoing[key] in s.tokens
    case Create(t, key, id) => s.At(t, Idle) && s.Missing(key) && key !in s.ongoing && id !in s.tokens
    case RunFactory(t, _) => t in s.pcs && s.pcs[t].Creating?
    case Publish(t, _) => t in s.pcs && s.pcs[t].Created? && s.pcs[t].token in s.tokens && s.pcs[t].key !in a.evicted
    case Wake(t) => t in s.pcs && s.pcs[t].Awake? && s.pcs[t].token in s.tokens
    case Spurious(t) => t in s.pcs && s.pcs[t].Asleep?
    case Return(t) => t in s.pcs && s.pcs[t].Finished?
    case OtherCacheUse(_) => true
  }

  /** Give up one count; the last participant erases the key's token. */
  function Leave(s: State, t: Thread, key: Key, tok: TokenId, result: Result): State
    requires tok in s.tokens
  {
    var n := s.tokens[tok].count - 1;
    s.(tokens := s.tokens[tok := s.tokens[tok].(count := n)],
       ongoing := if n == 0 then s.ongoing - {key} else s.ongoing,
       pcs := s.pcs[t := Finished(key, result, Some(tok))])
  }

  function Enter(s: State, t: Thread, key: Key, tok: TokenId): State
    requires tok in s.tokens
  {
    s.(tokens := s.tokens[tok := s.tokens[tok].(count := s.tokens[tok].count + 1)],
       pcs := s.pcs[t := Asleep(key, tok)])
  }

  function NotifyAll(pcs: map<Thread, PC>, tok: TokenId): map<Thread, PC> {
    map u | u in pcs :: if pcs[u].Asleep? && pcs[u].token == tok then Awake(pcs[u].key, tok) else pcs[u]
  }

  /** Record the factory's result in cache and token and wake the waiters. */
  function Settle(s: State, key: Key, tok: TokenId, result: Result, evicted: set<Key>): State
    requires tok in s.tokens
  {
    var token := s.tokens[tok];
    match result
    case Returned(slot) =>
      s.(cache := s.cache[key := slot] - evicted,
         tokens := s.tokens[tok := token.(val := slot, settled := true)],
         pcs := NotifyAll(s.pcs, tok))
    case Threw(error) =>
      s.(tokens := s.tokens[tok := token.(eptr := Some(error), settled := true)],
         pcs := NotifyAll(s.pcs, tok))
  }

  function Apply(s: State, a: Action): State
    requires Enabled(s, a)
  {
    match a
    case Hit(t, key) => s.(pcs := s.pcs[t := Finished(key, Returned(s.cache[key]), None)])
    case Join(t, key) =>
      var tok := s.ongoing[key];
      var joined := Enter(s, t, key, tok);
      if s.tokens[tok].Published() then Leave(joined, t, key, tok, s.tokens[tok].Outcome()) else joined
    case Create(t, key, id) =>
      s.(ongoing := s.ongoing[key := id], tokens := s.tokens[id := Token(key, Null, None, 1, t, false)],
         pcs := s.pcs[t := Creating(key, id)])
    case RunFactory(t, result) => s.(pcs := s.pcs[t := Created(s.pcs[t].key, s.pcs[t].token, result)])
    case Publish(t, evicted) =>
      var Created(key, tok, result) := s.pcs[t];
      Leave(Settle(s, key, tok, result, evicted), t, key, tok, result)
    case Wake(t) =>
      var Awake(key, tok) := s.pcs[t];
      if s.tokens[tok].Published() then Leave(s, t, key, tok, s.tokens[tok].Outcome())
      else s.(pcs := s.pcs[t := Asleep(key, tok)])
    case Spurious(t) => s.(pcs := s.pcs[t := Awake(s.pcs[t].key, s.pcs[t].token)])
    case Return(t) => s.(pcs := s.pcs[t := Idle])
    case OtherCacheUse(cache) => s.(cache := cache)
  }

  predicate Init(s: State) {
    s.ongoing == map[] && s.tokens == map[] && forall t :: t in s.pcs ==> s.pcs[t] == Idle
  }

  ghost predicate Run(states: seq<State>, actions: seq<Action>) {
    && |states| == |actions| + 1
    && (forall i :: 0 <= i < |actions| ==> Enabled(states[i], actions[i]) && states[i + 1] == Apply(states[i], actions[i]))
  }

  // The invariant.

  ghost function Participants(s: State, tok: TokenId): set<Thread> {
    set t | t in s.pcs && s.pcs[t].On(tok)
  }

  /** What holds of one thread's position. */
  ghost predicate ThreadOk(s: State, t: Thread)
    requires t in s.pcs
  {
    var pc := s.pcs[t];
    // Everyone in flight on a key holds the token registered for it.
    && (pc.InFlight() ==>
          pc.token in s.tokens && pc.key in s.ongoing && s.ongoing[pc.key] == pc.token)
    // Only the creator of an unsettled token runs a factory for it.
    && (pc.Creating? || pc.Created? ==> s.tokens[pc.token].creator == t && !s.tokens[pc.token].settled)
    // No waiter sleeps through a publication.
    && (pc.Asleep? ==> !s.tokens[pc.token].Published())
    && (pc.Finished? && pc.via.Some? ==>
          pc.via.value in s.tokens && s.tokens[pc.via.value].settled &&
          pc.result == s.tokens[pc.via.value].Outcome())
  }

  /** What holds of one token. */
  ghost predicate TokenOk(s: State, tok: TokenId)
    requires tok in s.tokens
  {
    var token := s.tokens[tok];
    && token.count == |Participants(s, tok)|
    && (!token.settled ==> token.creator in s.pcs && s.pcs[token.creator].Creates(tok))
    && (token.Published() ==> token.settled)
  }

  /** What holds of one registration. */
  ghost predicate KeyOk(s: State, key: Key)
    requires key in s.ongoing
  {
    var tok := s.ongoing[key];
    tok in s.tokens && s.tokens[tok].key == key && s.tokens[tok].count >= 1
  }

  ghost predicate Inv(s: State) {
    && (forall t {:trigger ThreadOk(s, t)} :: t in s.pcs ==> ThreadOk(s, t))
    && (forall tok {:trigger TokenOk(s, tok)} :: tok in s.tokens ==> TokenOk(s, tok))
    && (forall k {:trigger KeyOk(s, k)} :: k in s.ongoing ==> KeyOk(s, k))
  }

  lemma InitInv(s: State)
    requires Init(s)
    ensures Inv(s)
  {
  }

  /** A thread moving onto or off a token changes the head count by one. */
  lemma ThreadMoved(s: State, s': State, t: Thread, tok: TokenId)
    requires t in s.pcs && s'.pcs.Keys == s.pcs.Keys
    requires forall u {:trigger s'.pcs[u]} :: u in s.pcs && u != t ==> s'.pcs[u].On(tok) == s.pcs[u].On(tok)
    ensures |Participants(s', tok)| - |Participants(s, tok)| ==
            (if s'.pcs[t].On(tok) then 1 else 0) - (if s.pcs[t].On(tok) then 1 else 0)
  {
    var rest := Participants(s, tok) - {t};
    assert Participants(s', tok) - {t} == rest;
    assert Participants(s, tok) == if s.pcs[t].On(tok) then rest + {t} else rest;
    assert Participants(s', tok) == if s'.pcs[t].On(tok) then rest + {t} else rest;
  }

  lemma AtLeastOne(s: State, t: Thread, tok: TokenId)
    requires t in s.pcs && s.pcs[t].On(tok)
    ensures |Participants(s, tok)| >= 1
  {
    SubsetSize({t}, Participants(s, tok));
  }

  /** When the last participant leaves, nobody else is in flight on the token. */
  lemma LastOneOut(s: State, t: Thread, tok: TokenId, u: Thread)
    requires |Participants(s, tok)| == 1
    requires t in s.pcs && s.pcs[t].On(tok) && u in s.pcs && s.pcs[u].On(tok)
    ensures u == t
  {
    if u != t {
      SubsetSize({t, u}, Participants(s, tok));
    }
  }

  // Each action keeps the invariant.

  /** A thread that takes no part before or after the move. */
  lemma BystanderMoveInv(s: State, s': State, t: Thread)
    requires Inv(s) && t in s.pcs && !s.pcs[t].InFlight()
    requires s'.ongoing == s.ongoing && s'.tokens == s.tokens && s'.pcs.Keys == s.pcs.Keys
    requires s'.pcs == s.pcs[t := s'.pcs[t]] && !s'.pcs[t].InFlight() && ThreadOk(s', t)
    ensures Inv(s')
  {
    forall u | u in s'.pcs ensures ThreadOk(s', u) {
      assert ThreadOk(s, u);
    }
    forall tok | tok in s'.tokens ensures TokenOk(s', tok) {
      assert TokenOk(s, tok);
      ThreadMoved(s, s', t, tok);
    }
    forall k | k in s'.ongoing ensures KeyOk(s', k) {
      assert KeyOk(s, k);
    }
  }

  /** A participant that stays on its token in the same role. */
  lemma ParticipantMoveInv(s: State, s': State, t: Thread)
    requires Inv(s) && t in s.pcs && s.pcs[t].InFlight()
    requires s'.ongoing == s.ongoing && s'.tokens == s.tokens && s'.pcs.Keys == s.pcs.Keys
    requires s'.pcs == s.pcs[t := s'.pcs[t]] && s'.pcs[t].On(s.pcs[t].token) && ThreadOk(s', t)
    requires s'.pcs[t].Creates(s.pcs[t].token) == s.pcs[t].Creates(s.pcs[t].token)
    ensures Inv(s')
  {
    forall u | u in s'.pcs ensures ThreadOk(s', u) {
      assert ThreadOk(s, u);
    }
    forall tok | tok in s'.tokens ensures TokenOk(s', tok) {
      assert TokenOk(s, tok);
      ThreadMoved(s, s', t, tok);
    }
    forall k | k in s'.ongoing ensures KeyOk(s', k) {
      assert KeyOk(s, k);
    }
  }

  lemma EnterInv(s: State, t: Thread, key: Key)
    requires Inv(s) && Enabled(s, Join(t, key)) && !s.tokens[s.ongoing[key]].Published()
    ensures Inv(Enter(s, t, key, s.ongoing[key]))
  {
    var s' := Enter(s, t, key, s.ongoing[key]);
    forall u | u in s'.pcs ensures ThreadOk(s', u) {
      assert ThreadOk(s, u);
    }
    forall tok | tok in s'.tokens ensures TokenOk(s', tok) {
      assert TokenOk(s, tok);
      ThreadMoved(s, s', t, tok);
    }
    forall k | k in s'.ongoing ensures KeyOk(s', k) {
      assert KeyOk(s, k);
    }
  }

  /** A late arrival on a published token counts itself in and straight out again. */
  lemma JoinInv(s: State, t: Thread, key: Key)
    requires Inv(s) && Enabled(s, Join(t, key))
    ensures Inv(Apply(s, Join(t, key)))
  {
    var tok := s.ongoing[key];
    if s.tokens[tok].Published() {
      var s' := Apply(s, Join(t, key));
      assert KeyOk(s, key) && TokenOk(s, tok);
      assert s'.tokens == s.tokens && s'.ongoing == s.ongoing;
      BystanderMoveInv(s, s', t);
    } else {
      EnterInv(s, t, key);
    }
  }

  lemma CreateInv(s: State, t: Thread, key: Key, id: TokenId)
    requires Inv(s) && Enabled(s, Create(t, key, id))
    ensures Inv(Apply(s, Create(t, key, id)))
  {
    var s' := Apply(s, Create(t, key, id));
    forall u | u in s'.pcs ensures ThreadOk(s', u) {
      assert ThreadOk(s, u);
    }
    forall tok | tok in s'.tokens ensures TokenOk(s', tok) {
      ThreadMoved(s, s', t, tok);
      if tok == id {
        forall u | u in s.pcs ensures !s.pcs[u].On(id) {
          assert ThreadOk(s, u);
        }
        assert Participants(s, id) == {};
      } else {
        assert TokenOk(s, tok);
      }
    }
    forall k | k in s'.ongoing ensures KeyOk(s', k) {
      if k != key {
        assert KeyOk(s, k);
      }
    }
  }

  /** Publication: the creator's second critical section. */
  lemma PublishInv(s: State, t: Thread, evicted: set<Key>)
    requires Inv(s) && Enabled(s, Publish(t, evicted))
    ensures Inv(Apply(s, Publish(t, evicted)))
  {
    var s' := Apply(s, Publish(t, evicted));
    forall u | u in s'.pcs ensures ThreadOk(s', u) {
      PublishThreadOk(s, t, evicted, u);
    }
    forall x | x in s'.tokens ensures TokenOk(s', x) {
      PublishTokenOk(s, t, evicted, x);
    }
    forall k | k in s'.ongoing ensures KeyOk(s', k) {
      PublishKeyOk(s, t, evicted, k);
    }
  }

  lemma PublishThreadOk(s: State, t: Thread, evicted: set<Key>, u: Thread)
    requires Inv(s) && Enabled(s, Publish(t, evicted)) && u in s.pcs
    ensures u in Apply(s, Publish(t, evicted)).pcs && ThreadOk(Apply(s, Publish(t, evicted)), u)
  {
    var Created(key, tok, result) := s.pcs[t];
    assert ThreadOk(s, t) && TokenOk(s, tok) && KeyOk(s, key) && ThreadOk(s, u);
    AtLeastOne(s, t, tok);
    if u != t && s.pcs[u].On(tok) && s.tokens[tok].count == 1 {
      LastOneOut(s, t, tok, u);
    }
  }

  lemma PublishTokenOk(s: State, t: Thread, evicted: set<Key>, x: TokenId)
    requires Inv(s) && Enabled(s, Publish(t, evicted)) && x in s.tokens
    ensures x in Apply(s, Publish(t, evicted)).tokens && TokenOk(Apply(s, Publish(t, evicted)), x)
  {
    var s' := Apply(s, Publish(t, evicted));
    assert ThreadOk(s, t) && TokenOk(s, x);
    ThreadMoved(s, s', t, x);
  }

  lemma PublishKeyOk(s: State, t: Thread, evicted: set<Key>, k: Key)
    requires Inv(s) && Enabled(s, Publish(t, evicted)) && k in Apply(s, Publish(t, evicted)).ongoing
    ensures KeyOk(Apply(s, Publish(t, evicted)), k)
  {
    var Created(key, tok, result) := s.pcs[t];
    assert ThreadOk(s, t) && TokenOk(s, tok) && KeyOk(s, key) && KeyOk(s, k);
    AtLeastOne(s, t, tok);
  }

  /** A woken waiter of a published token leaves with its outcome. */
  lemma WakeLeaveInv(s: State, t: Thread)
    requires Inv(s) && Enabled(s, Wake(t)) && s.tokens[s.pcs[t].token].Published()
    ensures Inv(Apply(s, Wake(t)))
  {
    var Awake(key, tok) := s.pcs[t];
    var s' := Apply(s, Wake(t));
    assert ThreadOk(s, t) && TokenOk(s, tok) && KeyOk(s, key);
    AtLeastOne(s, t, tok);
    var last := s.tokens[tok].count == 1;
    forall u | u in s'.pcs ensures ThreadOk(s', u) {
      assert ThreadOk(s, u);
      if u != t && s.pcs[u].On(tok) && last {
        LastOneOut(s, t, tok, u);
      }
    }
    forall x | x in s'.tokens ensures TokenOk(s', x) {
      assert TokenOk(s, x);
      ThreadMoved(s, s', t, x);
    }
    forall k | k in s'.ongoing ensures KeyOk(s', k) {
      assert KeyOk(s, k);
    }
  }

  lemma OtherCacheUseInv(s: State, cache: map<Key, Slot>)
    requires Inv(s)
    ensures Inv(s.(cache := cache))
  {
    var s' := s.(cache := cache);
    forall u | u in s'.pcs ensures ThreadOk(s', u) {
      assert ThreadOk(s, u);
    }
    forall x | x in s'.tokens ensures TokenOk(s', x) {
      assert TokenOk(s, x);
      assert Participants(s', x) == Participants(s, x);
    }
    forall k | k in s'.ongoing ensures KeyOk(s', k) {
      assert KeyOk(s, k);
    }
  }

  lemma StepInv(s: State, a: Action)
    requires Inv(s) && Enabled(s, a)
    ensures Inv(Apply(s, a))
  {
    match a
    case Join(t, key) => JoinInv(s, t, key);
    case Create(t, key, id) => CreateInv(s, t, key, id);
    case Publish(t, evicted) => PublishInv(s, t, evicted);
    case OtherCacheUse(cache) => OtherCacheUseInv(s, cache);
    case Hit(t, _) => BystanderMoveInv(s, Apply(s, a), t);
    case Return(t) => BystanderMoveInv(s, Apply(s, a), t);
    case RunFactory(t, _) => assert ThreadOk(s, t); ParticipantMoveInv(s, Apply(s, a), t);
    case Spurious(t) => assert ThreadOk(s, t); ParticipantMoveInv(s, Apply(s, a), t);
    case Wake(t) =>
      assert ThreadOk(s, t);
      if s.tokens[s.pcs[t].token].Published() {
        WakeLeaveInv(s, t);
      } else {
        ParticipantMoveInv(s, Apply(s, a), t);
      }
  }

  lemma {:induction false} RunInv(states: seq<State>, actions: seq<Action>, i: nat)
    requires Run(states, actions) && Init(states[0]) && i < |states|
    ensures Inv(states[i])
  {
    if i == 0 {
      InitInv(states[0]);
    } else {
      RunInv(states, actions, i - 1);
      StepInv(states[i - 1], actions[i - 1]);
    }
  }
}
