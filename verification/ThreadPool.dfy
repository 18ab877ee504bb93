/**
  The thread pool as a step system: each action is one critical section of a worker,
  a caller of `Push` or `Wait`, or the destructor.
 */
module ThreadPool {
  import opened Sequences

  type Job = nat
  type Thread = nat

  datatype Worker = Sleeping | Ready | Running(job: Job) | Exited
  datatype Waiter = Outside | Blocked | Notified | Passed

  /** `pushed`, `started` and `finished` are the history the guarantees speak about. */
  datatype State = State(
    workers: seq<Worker>, idle: int, stopped: bool, jobs: seq<Job>, waiters: map<Thread, Waiter>,
    pushed: seq<Job>, started: seq<Job>, finished: multiset<Job>)
  {
    /** The predicate `Wait` blocks on. */
    predicate AllDone() {
      stopped || (idle == |workers| && jobs == [])
    }
  }

  datatype Action =
    | Push(job: Job, woken: Option<nat>)
    | Step(w: nat)
    | Finish(w: nat, notified: Option<Thread>)
    | WorkerSpurious(w: nat)
    | CallWait(t: Thread)
    | Recheck(t: Thread)
    | WaiterSpurious(t: Thread)
    | LeaveWait(t: Thread)
    | Stop

  predicate Enabled(s: State, a: Action) {
    match a
    // `notify_one` wakes a sleeper if there is one.
    case Push(_, woken) =>
      if woken.Some? then woken.value < |s.workers| && s.workers[woken.value] == Sleeping
      else Sleeping !in s.workers
    case Step(w) => w < |s.workers| && s.workers[w] == Ready
    case Finish(w, notified) =>
      w < |s.workers| && s.workers[w].Running? &&
      (if notified.Some? then notified.value in s.waiters && s.waiters[notified.value] == Blocked
       else forall t :: t in s.waiters ==> s.waiters[t] != Blocked)
    case WorkerSpurious(w) => w < |s.workers| && s.workers[w] == Sleeping
    case CallWait(t) => t in s.waiters && s.waiters[t] == Outside
    case Recheck(t) => t in s.waiters && s.waiters[t] == Notified
    case WaiterSpurious(t) => t in s.waiters && s.waiters[t] == Blocked
    case LeaveWait(t) => t in s.waiters && s.waiters[t] == Passed
    case Stop => true
  }

  function WakeAll(ws: seq<Worker>): (r: seq<Worker>)
    ensures |r| == |ws|
    ensures forall i :: 0 <= i < |ws| ==> r[i] == if ws[i] == Sleeping then Ready else ws[i]
  {
    seq(|ws|, i requires 0 <= i < |ws| => if ws[i] == Sleeping then Ready else ws[i])
  }

  function Apply(s: State, a: Action): State
    requires Enabled(s, a)
  {
    match a
    case Push(job, woken) =>
      s.(jobs := s.jobs + [job], pushed := s.pushed + [job],
         workers := if woken.Some? then s.workers[woken.value := Ready] else s.workers)
    case Step(w) =>
      if s.stopped then s.(workers := s.workers[w := Exited])
      else if s.jobs != [] then
        s.(workers := s.workers[w := Running(s.jobs[0])], jobs := s.jobs[1..], idle := s.idle - 1,
           started := s.started + [s.jobs[0]])
      else s.(workers := s.workers[w := Sleeping])
    case Finish(w, notified) =>
      s.(workers := s.workers[w := Ready], idle := s.idle + 1,
         finished := s.finished + multiset{s.workers[w].job},
         waiters := if notified.Some? then s.waiters[notified.value := Notified] else s.waiters)
    case WorkerSpurious(w) => s.(workers := s.workers[w := Ready])
    case CallWait(t) => s.(waiters := s.waiters[t := if s.AllDone() then Passed else Blocked])
    case Recheck(t) => s.(waiters := s.waiters[t := if s.AllDone() then Passed else Blocked])
    case WaiterSpurious(t) => s.(waiters := s.waiters[t := Notified])
    case LeaveWait(t) => s.(waiters := s.waiters[t := Outside])
    case Stop => s.(stopped := true, workers := WakeAll(s.workers))
  }

  predicate Init(s: State) {
    && (forall i :: 0 <= i < |s.workers| ==> s.workers[i] == Ready)
    && s.idle == |s.workers| && !s.stopped && s.jobs == [] && s.pushed == [] && s.started == []
    && s.finished == multiset{} && forall t :: t in s.waiters ==> s.waiters[t] == Outside
  }

  ghost predicate Run(states: seq<State>, actions: seq<Action>) {
    && |states| == |actions| + 1
    && (forall i :: 0 <= i < |actions| ==>
          Enabled(states[i], actions[i]) && states[i + 1] == Apply(states[i], actions[i]))
  }

  function JobOf(w: Worker): multiset<Job> {
    if w.Running? then multiset{w.job} else multiset{}
  }

  /** The jobs in progress. */
  function InProgress(ws: seq<Worker>): multiset<Job> {
    if ws == [] then multiset{} else JobOf(ws[0]) + InProgress(ws[1..])
  }

  /** A worker that takes a job adds it to the jobs in progress. */
  lemma {:induction false} InProgressTakes(ws: seq<Worker>, i: nat, j: Job)
    requires i < |ws| && !ws[i].Running?
    ensures InProgress(ws[i := Running(j)]) == InProgress(ws) + multiset{j}
  {
    var busy := ws[i := Running(j)];
    if i == 0 {
      assert busy[1..] == ws[1..];
      AddLast(multiset{}, InProgress(ws[1..]), j);
    } else {
      assert busy[1..] == ws[1..][i - 1 := Running(j)];
      InProgressTakes(ws[1..], i - 1, j);
      AddLast(JobOf(ws[0]), InProgress(ws[1..]), j);
    }
  }

  lemma AddLast(a: multiset<Job>, b: multiset<Job>, j: Job)
    ensures a + (b + multiset{j}) == (a + b) + multiset{j}
    ensures multiset{} + b == b && multiset{j} + b == b + multiset{j}
  {
  }

  lemma {:induction false} InProgressSame(a: seq<Worker>, b: seq<Worker>)
    requires |a| == |b| && forall i :: 0 <= i < |a| ==> JobOf(a[i]) == JobOf(b[i])
    ensures InProgress(a) == InProgress(b)
  {
    if a != [] {
      InProgressSame(a[1..], b[1..]);
    }
  }

  lemma {:induction false} InProgressBounded(ws: seq<Worker>)
    ensures |InProgress(ws)| <= |ws|
    ensures |InProgress(ws)| == 0 ==> forall i :: 0 <= i < |ws| ==> !ws[i].Running?
  {
    if ws != [] {
      InProgressBounded(ws[1..]);
    }
  }

  /** Every worker is idle or running, and every pushed job is queued, running or finished. */
  ghost predicate Accounts(s: State) {
    && s.idle + |InProgress(s.workers)| == |s.workers|
    && s.pushed == s.started + s.jobs
    && multiset(s.started) == InProgress(s.workers) + s.finished
  }

  /** No worker exits early, and no queued job is left to sleeping workers. */
  ghost predicate Attended(s: State) {
    && (forall i :: 0 <= i < |s.workers| && s.workers[i] == Exited ==> s.stopped)
    && (s.jobs != [] && s.workers != [] ==> exists i :: 0 <= i < |s.workers| && s.workers[i] != Sleeping)
  }

  ghost predicate Inv(s: State) {
    Accounts(s) && Attended(s)
  }

  lemma {:induction false} AllIdle(ws: seq<Worker>)
    requires forall i :: 0 <= i < |ws| ==> !ws[i].Running?
    ensures InProgress(ws) == multiset{}
  {
    if ws != [] {
      AllIdle(ws[1..]);
    }
  }

  lemma TakeAccounts(s: State, w: nat)
    requires Accounts(s) && Enabled(s, Step(w)) && !s.stopped && s.jobs != []
    ensures Accounts(Apply(s, Step(w)))
  {
    var j := s.jobs[0];
    InProgressTakes(s.workers, w, j);
    assert s.started + s.jobs == s.started + [j] + s.jobs[1..];
    Rearrange(InProgress(s.workers), s.finished, j);
    OneMore(InProgress(s.workers), j);
  }

  lemma Rearrange(a: multiset<Job>, b: multiset<Job>, j: Job)
    ensures (a + b) + multiset{j} == (a + multiset{j}) + b == a + (b + multiset{j})
  {
  }

  lemma FinishAccounts(s: State, a: Action)
    requires Accounts(s) && Enabled(s, a) && a.Finish?
    ensures Accounts(Apply(s, a))
  {
    var after, j := s.workers[a.w := Ready], s.workers[a.w].job;
    InProgressTakes(after, a.w, j);
    assert after[a.w := Running(j)] == s.workers;
    Rearrange(InProgress(after), s.finished, j);
    OneMore(InProgress(after), j);
  }

  lemma OneMore(a: multiset<Job>, j: Job)
    ensures |a + multiset{j}| == |a| + 1
  {
  }

  /** Actions that start and finish nothing. */
  lemma QuietWorkers(s: State, a: Action)
    requires Enabled(s, a) && !a.Finish? && !(a.Step? && !s.stopped && s.jobs != [])
    ensures InProgress(Apply(s, a).workers) == InProgress(s.workers)
  {
    var s' := Apply(s, a);
    forall i | 0 <= i < |s.workers| ensures JobOf(s'.workers[i]) == JobOf(s.workers[i]) {
      match a
      case Push(_, woken) =>
      case _ =>
    }
    InProgressSame(s.workers, s'.workers);
  }

  lemma QuietAccounts(s: State, a: Action)
    requires Accounts(s) && Enabled(s, a) && !a.Finish? && !(a.Step? && !s.stopped && s.jobs != [])
    ensures Accounts(Apply(s, a))
  {
    QuietWorkers(s, a);
    assert |Apply(s, a).workers| == |s.workers|;
    if a.Push? {
      assert s.started + s.jobs + [a.job] == s.started + (s.jobs + [a.job]);
    }
  }

  lemma StepAttended(s: State, a: Action)
    requires Attended(s) && Enabled(s, a)
    ensures Attended(Apply(s, a))
  {
    var s' := Apply(s, a);
    if s'.jobs != [] && s'.workers != [] {
      match a
      case Push(_, woken) =>
        assert s'.workers[if woken.Some? then woken.value else 0] in s'.workers;
      case Step(w) => assert s'.workers[w] != Sleeping;
      case Finish(w, _) => assert s'.workers[w] != Sleeping;
      case WorkerSpurious(w) => assert s'.workers[w] != Sleeping;
      case Stop => assert s'.workers[0] != Sleeping;
      case _ => assert s'.workers == s.workers;
    }
  }

  lemma StepInv(s: State, a: Action)
    requires Inv(s) && Enabled(s, a)
    ensures Inv(Apply(s, a))
  {
    StepAttended(s, a);
    if a.Finish? {
      FinishAccounts(s, a);
    } else if a.Step? && !s.stopped && s.jobs != [] {
      TakeAccounts(s, a.w);
    } else {
      QuietAccounts(s, a);
    }
  }

  lemma {:induction false} RunInv(states: seq<State>, actions: seq<Action>, i: nat)
    requires Run(states, actions) && Init(states[0]) && i < |states|
    ensures Inv(states[i])
  {
    if i == 0 {
      AllIdle(states[0].workers);
    } else {
      RunInv(states, actions, i - 1);
      StepInv(states[i - 1], actions[i - 1]);
    }
  }

  /**
    In every reachable state the idle count is exact, jobs start in push order, and each
    pushed job is queued, running or finished exactly once.
   */
  lemma EveryJobAccountedFor(states: seq<State>, actions: seq<Action>, i: nat)
    requires Run(states, actions) && Init(states[0]) && i < |states|
    ensures var s := states[i];
            && s.idle + |InProgress(s.workers)| == |s.workers|
            && s.started <= s.pushed
            && multiset(s.pushed) == multiset(s.jobs) + InProgress(s.workers) + s.finished
  {
    RunInv(states, actions, i);
  }

  /** When `Wait` lets a caller through on a running pool, every job pushed so far has finished. */
  lemma WaitMeansFinished(states: seq<State>, actions: seq<Action>, i: nat)
    requires Run(states, actions) && Init(states[0]) && i < |actions| && !states[i].stopped
    requires actions[i].CallWait? || actions[i].Recheck?
    requires states[i + 1].waiters[actions[i].t] == Passed
    ensures states[i].finished == multiset(states[i].pushed)
    ensures forall w :: 0 <= w < |states[i].workers| ==> !states[i].workers[w].Running?
  {
    RunInv(states, actions, i);
    DoneMeansFinished(states[i]);
  }

  lemma DoneMeansFinished(s: State)
    requires Accounts(s) && !s.stopped && s.AllDone()
    ensures s.finished == multiset(s.pushed)
    ensures forall w :: 0 <= w < |s.workers| ==> !s.workers[w].Running?
  {
    InProgressBounded(s.workers);
    assert s.started + [] == s.started;
    NoneLeft(InProgress(s.workers), s.finished);
  }

  lemma NoneLeft(a: multiset<Job>, b: multiset<Job>)
    requires |a| == 0
    ensures a + b == b
  {
  }

  /** A queued job on a running pool always has a worker that is awake. */
  lemma QueuedJobHasAwakeWorker(states: seq<State>, actions: seq<Action>, i: nat)
    requires Run(states, actions) && Init(states[0]) && i < |states|
    requires !states[i].stopped && states[i].jobs != [] && states[i].workers != []
    ensures exists w :: 0 <= w < |states[i].workers| && (states[i].workers[w] == Ready || states[i].workers[w].Running?)
  {
    RunInv(states, actions, i);
    var s := states[i];
    var w :| 0 <= w < |s.workers| && s.workers[w] != Sleeping;
    assert s.workers[w] == Ready || s.workers[w].Running?;
  }

  // Shutting down.

  /** Once the pool is stopped nobody sleeps, so every worker that is not running a job can see it and exit. */
  lemma {:induction false} NoSleeperAfterStop(states: seq<State>, actions: seq<Action>, i: nat)
    requires Run(states, actions) && Init(states[0]) && i < |states|
    ensures states[i].stopped ==> forall w :: 0 <= w < |states[i].workers| ==> states[i].workers[w] != Sleeping
  {
    if i > 0 {
      NoSleeperAfterStop(states, actions, i - 1);
      StopWakesSleepers(states[i - 1], actions[i - 1]);
    }
  }

  lemma StopWakesSleepers(s: State, a: Action)
    requires Enabled(s, a) && (s.stopped ==> forall w :: 0 <= w < |s.workers| ==> s.workers[w] != Sleeping)
    ensures var s' := Apply(s, a);
            s'.stopped ==> forall w :: 0 <= w < |s'.workers| ==> s'.workers[w] != Sleeping
  {
  }

  /** A worker that looks at a stopped pool exits, whatever is queued. */
  lemma StoppedWorkerExits(s: State, w: nat)
    requires s.stopped && w < |s.workers| && s.workers[w] == Ready
    ensures Enabled(s, Step(w)) && Apply(s, Step(w)).workers[w] == Exited
  {
  }

  /** No job starts, and the pool stays stopped, after a shutdown. */
  lemma {:induction false} NoJobStartsAfterStop(states: seq<State>, actions: seq<Action>, i: nat, j: nat)
    requires Run(states, actions) && i <= j < |states| && states[i].stopped
    ensures states[j].stopped && states[j].started == states[i].started
  {
    if i < j {
      NoJobStartsAfterStop(states, actions, i, j - 1);
      StoppedStartsNothing(states[j - 1], actions[j - 1]);
    }
  }

  lemma StoppedStartsNothing(s: State, a: Action)
    requires Enabled(s, a) && s.stopped
    ensures Apply(s, a).stopped && Apply(s, a).started == s.started
  {
  }

  // Waking the callers of `Wait`.

  /** The caller may go, because the pool is idle or dead, but sleeps on. */
  ghost predicate Missed(s: State, t: Thread) {
    s.AllDone() && t in s.waiters && s.waiters[t] == Blocked
  }

  ghost predicate NobodyMissedIt(s: State) {
    forall t :: !Missed(s, t)
  }

  /** A caller that was let through can leave and wait again. */
  lemma PassedCanWaitAgain(s: State, t: Thread)
    requires t in s.waiters && s.waiters[t] == Passed
    ensures Enabled(s, LeaveWait(t)) && Enabled(Apply(s, LeaveWait(t)), CallWait(t))
  {
  }

  /** Taking a job makes the pool busy. */
  lemma TakingIsNotDone(s: State, w: nat)
    requires Accounts(s) && Enabled(s, Step(w)) && !s.stopped && s.jobs != []
    ensures !Apply(s, Step(w)).AllDone()
  {
    InProgressBounded(s.workers);
  }

  /** A completion that leaves nothing to do while somebody other than the notified caller is blocked. */
  ghost predicate LastJobLeaves(s: State, a: Action, t: Thread)
    requires Enabled(s, a)
  {
    a.Finish? && Apply(s, a).AllDone() && t in s.waiters && s.waiters[t] == Blocked && a.notified != Some(t)
  }

  /** A shutdown while somebody is blocked. */
  ghost predicate StopLeaves(s: State, a: Action, t: Thread) {
    a.Stop? && t in s.waiters && s.waiters[t] == Blocked
  }

  /** A caller comes to miss its release at exactly these two steps. */
  lemma MissesIff(s: State, a: Action, t: Thread)
    requires Accounts(s) && Enabled(s, a) && NobodyMissedIt(s)
    ensures Missed(Apply(s, a), t) <==> LastJobLeaves(s, a, t) || StopLeaves(s, a, t)
  {
    assert !Missed(s, t);
    if a.Step? && !s.stopped && s.jobs != [] {
      TakingIsNotDone(s, a.w);
    } else if !a.Finish? && !a.Stop? {
      OthersReleaseNobody(s, a);
    }
  }

  lemma OthersReleaseNobody(s: State, a: Action)
    requires Enabled(s, a) && !a.Finish? && !a.Stop? && !(a.Step? && !s.stopped && s.jobs != [])
    ensures Apply(s, a).AllDone() ==> s.AllDone()
  {
    var s' := Apply(s, a);
    assert s'.idle == s.idle && |s'.workers| == |s.workers|;
  }

  lemma WaiterSet(s: State, a: Action)
    requires Enabled(s, a)
    ensures Apply(s, a).waiters.Keys == s.waiters.Keys && |Apply(s, a).workers| == |s.workers|
  {
  }

  lemma {:induction false} RunKeepsSizes(states: seq<State>, actions: seq<Action>, i: nat)
    requires Run(states, actions) && i < |states|
    ensures states[i].waiters.Keys == states[0].waiters.Keys && |states[i].workers| == |states[0].workers|
  {
    if i > 0 {
      RunKeepsSizes(states, actions, i - 1);
      WaiterSet(states[i - 1], actions[i - 1]);
    }
  }

  ghost predicate SomeoneBlocked(s: State) {
    exists t :: t in s.waiters && s.waiters[t] == Blocked
  }

  /** The pool is only shut down while nobody is blocked in `Wait`. */
  ghost predicate CarefulShutdown(states: seq<State>, actions: seq<Action>)
    requires |states| == |actions| + 1
  {
    forall i :: 0 <= i < |actions| && actions[i].Stop? ==> !SomeoneBlocked(states[i])
  }

  /** One caller of `Wait` at most, or no worker at all. */
  predicate OneCaller(s: State) {
    |s.waiters.Keys| <= 1 || s.workers == []
  }

  lemma OneMember(waiters: set<Thread>, t: Thread, u: Thread)
    requires |waiters| <= 1 && t in waiters && u in waiters
    ensures t == u
  {
    if t != u {
      assert {t, u} <= waiters;
      SubsetSize({t, u}, waiters);
    }
  }

  /** With one caller, a completion notifies the caller that is blocked. */
  lemma LastJobLeavesNoOne(s: State, a: Action, t: Thread)
    requires Enabled(s, a) && OneCaller(s)
    ensures !LastJobLeaves(s, a, t)
  {
    if LastJobLeaves(s, a, t) && a.notified.Some? {
      OneMember(s.waiters.Keys, t, a.notified.value);
    }
  }

  /** With one caller and no shutdown over its head, no release is ever slept through. */
  lemma {:induction false} OneCallerNeverMisses(states: seq<State>, actions: seq<Action>, i: nat)
    requires Run(states, actions) && Init(states[0]) && OneCaller(states[0]) && i < |states|
    requires CarefulShutdown(states, actions)
    ensures NobodyMissedIt(states[i])
  {
    if i > 0 {
      var s, a := states[i - 1], actions[i - 1];
      OneCallerNeverMisses(states, actions, i - 1);
      RunInv(states, actions, i - 1);
      RunKeepsSizes(states, actions, i - 1);
      assert a.Stop? ==> !SomeoneBlocked(s);
      StepMissesNobody(s, a);
    }
  }

  lemma StepMissesNobody(s: State, a: Action)
    requires Accounts(s) && Enabled(s, a) && OneCaller(s) && NobodyMissedIt(s) && (a.Stop? ==> !SomeoneBlocked(s))
    ensures NobodyMissedIt(Apply(s, a))
  {
    forall t ensures !Missed(Apply(s, a), t) {
      MissesIff(s, a, t);
      LastJobLeavesNoOne(s, a, t);
    }
  }

  /** A shutdown over a blocked caller's head leaves it asleep. */
  lemma CarelessShutdownMisses(states: seq<State>, actions: seq<Action>) returns (i: nat)
    requires Run(states, actions) && !CarefulShutdown(states, actions)
    ensures i < |states| && !NobodyMissedIt(states[i])
  {
    var j :| 0 <= j < |actions| && actions[j].Stop? && SomeoneBlocked(states[j]);
    var t :| t in states[j].waiters && states[j].waiters[t] == Blocked;
    i := j + 1;
    assert Missed(states[i], t);
  }

  /** A history of a pool with one caller keeps the promise of `Wait` exactly when its shutdown is careful. */
  lemma OneCallerMissesIffShutdown(states: seq<State>, actions: seq<Action>)
    requires Run(states, actions) && Init(states[0]) && OneCaller(states[0])
    ensures (forall i :: 0 <= i < |states| ==> NobodyMissedIt(states[i])) <==> CarefulShutdown(states, actions)
  {
    if CarefulShutdown(states, actions) {
      forall i | 0 <= i < |states| ensures NobodyMissedIt(states[i]) {
        OneCallerNeverMisses(states, actions, i);
      }
    } else {
      var i := CarelessShutdownMisses(states, actions);
    }
  }

  /** A blocked caller on a pool where no job is running or will be. */
  ghost predicate LeftBehind(s: State, t: Thread) {
    && (s.stopped || s.jobs == []) && (forall w :: 0 <= w < |s.workers| ==> !s.workers[w].Running?)
    && t in s.waiters && s.waiters[t] == Blocked
  }

  lemma LeftBehindIsMissed(s: State, t: Thread)
    requires Accounts(s) && LeftBehind(s, t)
    ensures Missed(s, t)
  {
    AllIdle(s.workers);
  }

  lemma StaysLeftBehind(s: State, a: Action, t: Thread)
    requires LeftBehind(s, t) && Enabled(s, a) && a != WaiterSpurious(t) && (a.Push? ==> s.stopped)
    ensures LeftBehind(Apply(s, a), t)
  {
  }

  /** Only the caller's own spurious wake-up, or a push while the pool is alive, can end that state. */
  lemma {:induction false} LeftBehindStaysBlocked(states: seq<State>, actions: seq<Action>, i: nat, t: Thread)
    requires Run(states, actions) && LeftBehind(states[0], t) && i < |states|
    requires forall j :: 0 <= j < |actions| ==>
      actions[j] != WaiterSpurious(t) && (actions[j].Push? ==> states[j].stopped)
    ensures LeftBehind(states[i], t)
  {
    if i > 0 {
      LeftBehindStaysBlocked(states, actions, i - 1, t);
      StaysLeftBehind(states[i - 1], actions[i - 1], t);
    }
  }

  /** From every new pool with a worker, any two callers have a history that leaves the second behind. */
  lemma TwoCallersCanMiss(s: State, t: Thread, u: Thread) returns (states: seq<State>, actions: seq<Action>)
    requires Init(s) && s.workers != [] && t in s.waiters && u in s.waiters && t != u
    ensures Run(states, actions) && states[0] == s && LeftBehind(states[|actions|], u)
    ensures CarefulShutdown(states, actions) && !states[|actions|].stopped
  {
    states, actions := Extend([s], [], Push(7, None));
    states, actions := Extend(states, actions, Step(0));
    states, actions := Extend(states, actions, CallWait(t));
    states, actions := Extend(states, actions, CallWait(u));
    states, actions := Extend(states, actions, Finish(0, Some(t)));
  }

  /** From every new pool, a shutdown can leave any caller behind: only the workers are notified. */
  lemma ShutdownCanMiss(s: State, t: Thread) returns (states: seq<State>, actions: seq<Action>)
    requires Init(s) && t in s.waiters
    ensures Run(states, actions) && states[0] == s && LeftBehind(states[|actions|], t) && states[|actions|].stopped
  {
    states, actions := Extend([s], [], Push(7, None));
    states, actions := Extend(states, actions, CallWait(t));
    states, actions := Extend(states, actions, Stop);
  }

  lemma Extend(states: seq<State>, actions: seq<Action>, a: Action) returns (states': seq<State>, actions': seq<Action>)
    requires Run(states, actions) && Enabled(states[|actions|], a)
    ensures Run(states', actions') && states'[0] == states[0] && actions' == actions + [a]
    ensures states'[|actions'|] == Apply(states[|actions|], a)
  {
    states', actions' := states + [Apply(states[|actions|], a)], actions + [a];
  }

  /** No history from `s` with a careful shutdown leaves a caller asleep that may go. */
  ghost predicate WaitKeepsItsPromise(s: State) {
    forall states: seq<State>, actions: seq<Action>, i: nat ::
      Run(states, actions) && states[0] == s && CarefulShutdown(states, actions) && i < |states| ==>
      NobodyMissedIt(states[i])
  }

  lemma BrokenPromise(states: seq<State>, actions: seq<Action>, t: Thread)
    requires Run(states, actions) && Init(states[0]) && CarefulShutdown(states, actions)
    requires LeftBehind(states[|actions|], t)
    ensures !WaitKeepsItsPromise(states[0])
  {
    RunInv(states, actions, |actions|);
    LeftBehindIsMissed(states[|actions|], t);
  }

  lemma TwoMembers(waiters: set<Thread>) returns (t: Thread, u: Thread)
    requires |waiters| > 1
    ensures t in waiters && u in waiters && t != u
  {
    t :| t in waiters;
    var rest := waiters - {t};
    assert |rest| == |waiters| - 1;
    u :| u in rest;
  }

  /** `Wait` keeps its promise exactly when at most one thread calls it, or there is no worker to run a job. */
  lemma WaitIsExactIff(s: State)
    requires Init(s)
    ensures WaitKeepsItsPromise(s) <==> OneCaller(s)
  {
    if OneCaller(s) {
      forall states: seq<State>, actions: seq<Action>, i: nat
        | Run(states, actions) && states[0] == s && CarefulShutdown(states, actions) && i < |states|
        ensures NobodyMissedIt(states[i])
      {
        OneCallerNeverMisses(states, actions, i);
      }
    } else {
      var t, u := TwoMembers(s.waiters.Keys);
      var states, actions := TwoCallersCanMiss(s, t, u);
      BrokenPromise(states, actions, u);
    }
  }
}
