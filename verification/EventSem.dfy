/**
 * Event semaphores as a transition system: any number of threads, one step at a time, each step one access to the
 * semaphore or one mutex or condition variable operation.
 */
module EventSem {
  import opened Base

  datatype Call = Post | Reset | Query | Close | Try | Wait(timed: bool)

  /**
   * Where a thread stands in a call. A wait's `late` says that the condition variable reported a timeout; a query's
   * result is the count it reports.
   */
  datatype Place =
    | Idle
    | Locking(call: Call)
    | Body(call: Call)
    | Broadcasting
    | Testing(timed: bool)
    | Sleeping(timed: bool)
    | Waking(timed: bool, late: bool)
    | Rechecking(timed: bool, late: bool)
    | Leaving(timed: bool, seen: bool)
    | Unlocking(call: Call, result: int)

  /** What the history remembers; `Saw` is a look at the posted flag, under the mutex, that did not change it. */
  datatype Event =
    | Called(t: nat, call: Call)
    | Posted(t: nat)
    | WasReset(t: nat)
    | Saw(t: nat, posted: bool)
    | Returned(t: nat, call: Call, result: int)

  datatype State = State(posted: bool, waiting: int, owner: Option<nat>, at: seq<Place>, log: seq<Event>)

  const NO_ERROR := 0
  const ERROR_TIMEOUT := 640
  const ERROR_ALREADY_POSTED := 299
  const ERROR_ALREADY_RESET := 300
  const ERROR_SEM_BUSY := 301

  /** What the scheduler and the environment decide. */
  datatype Choice = Begin(call: Call) | Go | Wake | Expire

  function IsTrue(b: bool): int {
    if b then 1 else 0
  }

  function Move(s: State, t: nat, p: Place): (r: State)
    requires t < |s.at|
    ensures |r.at| == |s.at|
  {
    s.(at := s.at[t := p])
  }

  function Record(s: State, e: Event): State {
    s.(log := s.log + [e])
  }

  /** pthread_cond_broadcast. */
  function WakeAll(at: seq<Place>): (r: seq<Place>)
    ensures |r| == |at|
  {
    seq(|at|, i requires 0 <= i < |at| => if at[i].Sleeping? then Waking(at[i].timed, false) else at[i])
  }

  /** The step inside the mutex of each call. */
  function BodyStep(s: State, t: nat, call: Call): (r: State)
    requires t < |s.at|
    ensures |r.at| == |s.at|
  {
    match call
    case Post =>
      if s.posted then Move(Record(s, Saw(t, true)), t, Unlocking(call, ERROR_ALREADY_POSTED))
      else Move(Record(s, Posted(t)).(posted := true), t, Broadcasting)
    case Reset =>
      if s.posted then Move(Record(s, WasReset(t)).(posted := false), t, Unlocking(call, NO_ERROR))
      else Move(Record(s, Saw(t, false)), t, Unlocking(call, ERROR_ALREADY_RESET))
    case Query => Move(Record(s, Saw(t, s.posted)), t, Unlocking(call, IsTrue(s.posted)))
    case Close => Move(s, t, Unlocking(call, if s.waiting > 0 then ERROR_SEM_BUSY else NO_ERROR))
    case Try => Move(Record(s, Saw(t, s.posted)), t, Unlocking(call, if s.posted then NO_ERROR else ERROR_TIMEOUT))
    case Wait(timed) => Move(s.(waiting := s.waiting + 1), t, Testing(timed))
  }

  /** Thread `t`'s next step, if it can take one. */
  function Next(s: State, t: nat, c: Choice): (r: Option<State>)
    requires t < |s.at|
    ensures r.Some? ==> |r.value.at| == |s.at|
  {
    match s.at[t]
    case Idle => if c.Begin? then Some(Move(Record(s, Called(t, c.call)), t, Locking(c.call))) else None
    case Locking(call) => if c == Go && s.owner == None then Some(Move(s.(owner := Some(t)), t, Body(call))) else None
    case Body(call) => if c == Go then Some(BodyStep(s, t, call)) else None
    case Broadcasting =>
      if c == Go then Some(s.(at := WakeAll(s.at)[t := Unlocking(Post, NO_ERROR)])) else None
    case Testing(timed) =>
      if c != Go then None
      else if s.posted then Some(Move(Record(s, Saw(t, true)), t, Leaving(timed, true)))
      else Some(Move(s.(owner := None), t, Sleeping(timed)))
    case Sleeping(timed) =>
      if c == Wake then Some(Move(s, t, Waking(timed, false)))
      else if c == Expire && timed then Some(Move(s, t, Waking(timed, true)))
      else None
    case Waking(timed, late) =>
      if c == Go && s.owner == None then Some(Move(s.(owner := Some(t)), t, Rechecking(timed, late))) else None
    case Rechecking(timed, late) =>
      if c != Go then None
      else
        var s' := Record(s, Saw(t, s.posted));
        Some(Move(s', t, if s.posted || late then Leaving(timed, s.posted) else Testing(timed)))
    case Leaving(timed, seen) =>
      if c != Go then None
      else Some(Move(s.(waiting := s.waiting - 1), t,
          Unlocking(Wait(timed), if seen then NO_ERROR else ERROR_TIMEOUT)))
    case Unlocking(call, result) =>
      if c == Go then Some(Move(Record(s, Returned(t, call, result)).(owner := None), t, Idle)) else None
  }

  // Runs.

  function Run(s: State, steps: seq<(nat, Choice)>): (r: Option<State>)
    decreases |steps|
  {
    if steps == [] then Some(s)
    else if steps[0].0 >= |s.at| then None
    else
      var next := Next(s, steps[0].0, steps[0].1);
      if next.None? then None else Run(next.value, steps[1..])
  }

  /** A new semaphore with `n` threads; `waiting0` is what the waiting field holds before its first use. */
  function Start(posted: bool, waiting0: int, n: nat): State {
    State(posted, waiting0, None, seq(n, _ => Idle), [])
  }

  predicate Holds(p: Place) {
    p.Body? || p.Broadcasting? || p.Testing? || p.Rechecking? || p.Leaving? || p.Unlocking?
  }

  /** Between counting itself in and counting itself out. */
  predicate Inside(p: Place) {
    p.Testing? || p.Sleeping? || p.Waking? || p.Rechecking? || p.Leaving?
  }

  function CountInside(at: seq<Place>): nat {
    if at == [] then 0 else IsTrue(Inside(at[0])) + CountInside(at[1..])
  }

  /** The posted flag that a history of successful posts and resets implies; none if two of a kind follow each other. */
  function Replay(posted: bool, log: seq<Event>): Option<bool> {
    if log == [] then Some(posted)
    else
      var before := Replay(posted, log[..|log| - 1]);
      match log[|log| - 1]
      case Posted(_) => if before == Some(false) then Some(true) else None
      case WasReset(_) => if before == Some(true) then Some(false) else None
      case _ => before
  }

  /** What thread `t` last saw in its present call. */
  function LastSeen(log: seq<Event>, t: nat): Option<bool> {
    if log == [] then None
    else
      match log[|log| - 1]
      case Called(u, _) => if u == t then None else LastSeen(log[..|log| - 1], t)
      case Saw(u, posted) => if u == t then Some(posted) else LastSeen(log[..|log| - 1], t)
      case _ => LastSeen(log[..|log| - 1], t)
  }

  /** The last event of thread `t`. */
  function LastOwn(log: seq<Event>, t: nat): Option<Event> {
    if log == [] then None
    else if log[|log| - 1].t == t then Some(log[|log| - 1])
    else LastOwn(log[..|log| - 1], t)
  }

  /** The mutex is held by exactly the thread inside a critical section. */
  predicate Exclusive(s: State) {
    && (s.owner.Some? ==> s.owner.value < |s.at|)
    && forall t :: 0 <= t < |s.at| ==> (Holds(s.at[t]) <==> s.owner == Some(t))
  }

  /** While the semaphore is posted nobody sleeps, except until the poster's own broadcast. */
  predicate NobodyMissed(s: State) {
    forall t :: 0 <= t < |s.at| && s.at[t].Sleeping? && s.posted ==>
      s.owner.Some? && s.owner.value < |s.at| && s.at[s.owner.value].Broadcasting?
  }

  /** A wait's outcome is what the thread last saw; only a timed wait can be late. */
  predicate Truthful(log: seq<Event>, t: nat, p: Place) {
    match p
    case Leaving(timed, seen) => LastSeen(log, t) == Some(seen) && (timed || seen)
    case Waking(timed, late) => timed || !late
    case Rechecking(timed, late) => timed || !late
    case Broadcasting => LastOwn(log, t) == Some(Posted(t))
    case Unlocking(call, result) =>
      && TruthfulResult(log, t, call, result) && TruthfulQuery(log, t, call, result)
      && TruthfulChange(log, t, call, result)
    case _ => true
  }

  predicate TruthfulResult(log: seq<Event>, t: nat, call: Call, result: int) {
    call.Try? || call.Wait? ==>
      && (result == NO_ERROR || result == ERROR_TIMEOUT) && LastSeen(log, t) == Some(result == NO_ERROR)
      && (call.Wait? && !call.timed ==> result == NO_ERROR)
  }

  /** A query's result is the flag it saw. */
  predicate TruthfulQuery(log: seq<Event>, t: nat, call: Call, result: int) {
    call.Query? ==> (result == 0 || result == 1) && LastSeen(log, t) == Some(result == 1)
  }

  /** A post or reset reports success if the thread has just changed the flag, and otherwise that there was no need. */
  predicate TruthfulChange(log: seq<Event>, t: nat, call: Call, result: int) {
    && (call.Post? ==>
          || (result == NO_ERROR && LastOwn(log, t) == Some(Posted(t)))
          || (result == ERROR_ALREADY_POSTED && LastOwn(log, t) == Some(Saw(t, true))))
    && (call.Reset? ==>
          || (result == NO_ERROR && LastOwn(log, t) == Some(WasReset(t)))
          || (result == ERROR_ALREADY_RESET && LastOwn(log, t) == Some(Saw(t, false))))
  }

  /** Every return recorded was truthful when it happened. */
  predicate AllTruthful(log: seq<Event>) {
    forall i :: 0 <= i < |log| && log[i].Returned? ==>
      && TruthfulResult(log[..i], log[i].t, log[i].call, log[i].result)
      && TruthfulQuery(log[..i], log[i].t, log[i].call, log[i].result)
      && TruthfulChange(log[..i], log[i].t, log[i].call, log[i].result)
  }

  /** Every look at the flag recorded what the history says it was. */
  predicate AllSeen(posted0: bool, log: seq<Event>) {
    forall i :: 0 <= i < |log| && log[i].Saw? ==> Replay(posted0, log[..i]) == Some(log[i].posted)
  }

  predicate Inv(s: State, posted0: bool, waiting0: int) {
    && Exclusive(s) && NobodyMissed(s)
    && s.waiting == waiting0 + CountInside(s.at)
    && Replay(posted0, s.log) == Some(s.posted)
    && AllTruthful(s.log) && AllSeen(posted0, s.log)
    && forall t :: 0 <= t < |s.at| ==> Truthful(s.log, t, s.at[t])
  }

  lemma {:induction false} CountUpdate(at: seq<Place>, t: nat, p: Place)
    requires t < |at|
    ensures CountInside(at[t := p]) == CountInside(at) - IsTrue(Inside(at[t])) + IsTrue(Inside(p))
  {
    if t == 0 {
      assert at[t := p][1..] == at[1..];
    } else {
      CountUpdate(at[1..], t - 1, p);
      assert at[t := p][1..] == at[1..][t - 1 := p];
    }
  }

  lemma {:induction false} CountWakeAll(at: seq<Place>)
    ensures CountInside(WakeAll(at)) == CountInside(at)
  {
    if at != [] {
      CountWakeAll(at[1..]);
      assert WakeAll(at)[1..] == WakeAll(at[1..]);
    }
  }

  lemma RecordAt(log: seq<Event>, e: Event)
    ensures (log + [e])[..|log + [e]| - 1] == log && (log + [e])[|log + [e]| - 1] == e
  {
  }

  lemma {:induction false} ZeroInside(n: nat)
    ensures CountInside(seq(n, _ => Idle)) == 0
  {
    if n > 0 {
      ZeroInside(n - 1);
      assert seq(n, _ => Idle)[1..] == seq(n - 1, _ => Idle);
    }
  }

  lemma StartInv(posted: bool, waiting0: int, n: nat)
    ensures Inv(Start(posted, waiting0, n), posted, waiting0)
  {
    ZeroInside(n);
  }

  // Every step keeps the invariant, conjunct by conjunct.

  lemma StepExclusive(s: State, t: nat, c: Choice)
    requires t < |s.at| && Next(s, t, c).Some? && Exclusive(s)
    ensures Exclusive(Next(s, t, c).value)
  {
  }

  lemma StepMissed(s: State, t: nat, c: Choice)
    requires t < |s.at| && Next(s, t, c).Some? && Exclusive(s) && NobodyMissed(s)
    ensures NobodyMissed(Next(s, t, c).value)
  {
  }

  lemma StepCount(s: State, t: nat, c: Choice, waiting0: int)
    requires t < |s.at| && Next(s, t, c).Some? && s.waiting == waiting0 + CountInside(s.at)
    ensures Next(s, t, c).value.waiting == waiting0 + CountInside(Next(s, t, c).value.at)
  {
    hide CountInside;
    var s' := Next(s, t, c).value;
    CountWakeAll(s.at);
    CountUpdate(s.at, t, s'.at[t]);
    CountUpdate(WakeAll(s.at), t, s'.at[t]);
  }

  /** A step adds at most one event, its own. */
  lemma StepLog(s: State, t: nat, c: Choice) returns (e: Option<Event>)
    requires t < |s.at| && Next(s, t, c).Some?
    ensures e.None? ==> Next(s, t, c).value.log == s.log && Next(s, t, c).value.posted == s.posted
    ensures e.Some? ==> Next(s, t, c).value.log == s.log + [e.value] && e.value.t == t
    ensures e.Some? ==> Next(s, t, c).value.posted == match e.value
                          case Posted(_) => true case WasReset(_) => false case _ => s.posted
    ensures e.Some? && e.value.Posted? ==> !s.posted
    ensures e.Some? && e.value.WasReset? ==> s.posted
    ensures e.Some? && e.value.Saw? ==> e.value.posted == s.posted
    ensures e.Some? && e.value.Returned? ==> s.at[t] == Unlocking(e.value.call, e.value.result)
  {
    var s' := Next(s, t, c).value;
    if |s'.log| == |s.log| {
      e := None;
    } else {
      e := Some(s'.log[|s.log|]);
    }
  }

  lemma StepReplay(s: State, t: nat, c: Choice, posted0: bool)
    requires t < |s.at| && Next(s, t, c).Some? && Replay(posted0, s.log) == Some(s.posted)
    ensures Replay(posted0, Next(s, t, c).value.log) == Some(Next(s, t, c).value.posted)
  {
    var e := StepLog(s, t, c);
    hide Next;
    if e.Some? {
      RecordAt(s.log, e.value);
    }
  }

  lemma StepAllTruthful(s: State, t: nat, c: Choice)
    requires t < |s.at| && Next(s, t, c).Some? && AllTruthful(s.log) && Truthful(s.log, t, s.at[t])
    ensures AllTruthful(Next(s, t, c).value.log)
  {
    var e := StepLog(s, t, c);
    hide Next, TruthfulResult, TruthfulQuery, TruthfulChange;
    if e.Some? {
      var log' := s.log + [e.value];
      forall i | 0 <= i < |log'| && log'[i].Returned?
        ensures TruthfulResult(log'[..i], log'[i].t, log'[i].call, log'[i].result)
        ensures TruthfulQuery(log'[..i], log'[i].t, log'[i].call, log'[i].result)
        ensures TruthfulChange(log'[..i], log'[i].t, log'[i].call, log'[i].result)
      {
        assert log'[..i] == s.log[..i];
        assert s.log[..|s.log|] == s.log;
      }
    }
  }

  lemma StepAllSeen(s: State, t: nat, c: Choice, posted0: bool)
    requires t < |s.at| && Next(s, t, c).Some? && AllSeen(posted0, s.log) && Replay(posted0, s.log) == Some(s.posted)
    ensures AllSeen(posted0, Next(s, t, c).value.log)
  {
    var e := StepLog(s, t, c);
    hide Next, Replay;
    if e.Some? {
      var log' := s.log + [e.value];
      forall i | 0 <= i < |log'| && log'[i].Saw? ensures Replay(posted0, log'[..i]) == Some(log'[i].posted) {
        assert log'[..i] == s.log[..i];
        assert s.log[..|s.log|] == s.log;
      }
    }
  }

  /** What a thread has seen is not affected by another thread's step. */
  lemma StepLastSeen(s: State, t: nat, c: Choice, u: nat)
    requires t < |s.at| && Next(s, t, c).Some? && u != t
    ensures LastSeen(Next(s, t, c).value.log, u) == LastSeen(s.log, u)
    ensures LastOwn(Next(s, t, c).value.log, u) == LastOwn(s.log, u)
  {
    var e := StepLog(s, t, c);
    hide Next;
    if e.Some? {
      RecordAt(s.log, e.value);
    }
  }

  lemma StepOthers(s: State, t: nat, c: Choice, u: nat)
    requires t < |s.at| && Next(s, t, c).Some? && u < |s.at| && u != t && Truthful(s.log, u, s.at[u])
    ensures Truthful(Next(s, t, c).value.log, u, Next(s, t, c).value.at[u])
  {
    StepLastSeen(s, t, c, u);
    hide LastSeen, LastOwn;
  }

  lemma StepOwn(s: State, t: nat, c: Choice)
    requires t < |s.at| && Next(s, t, c).Some? && Truthful(s.log, t, s.at[t])
    ensures Truthful(Next(s, t, c).value.log, t, Next(s, t, c).value.at[t])
  {
  }

  lemma StepInv(s: State, t: nat, c: Choice, posted0: bool, waiting0: int)
    requires t < |s.at| && Next(s, t, c).Some? && Inv(s, posted0, waiting0)
    ensures Inv(Next(s, t, c).value, posted0, waiting0)
  {
    StepExclusive(s, t, c);
    StepMissed(s, t, c);
    StepCount(s, t, c, waiting0);
    StepReplay(s, t, c, posted0);
    StepAllTruthful(s, t, c);
    StepAllSeen(s, t, c, posted0);
    StepOwn(s, t, c);
    hide Next, Exclusive, NobodyMissed, Truthful, AllTruthful, AllSeen;
    forall u | 0 <= u < |s.at| ensures Truthful(Next(s, t, c).value.log, u, Next(s, t, c).value.at[u]) {
      if u != t {
        StepOthers(s, t, c, u);
      }
    }
  }

  lemma {:induction false} RunInv(s: State, steps: seq<(nat, Choice)>, posted0: bool, waiting0: int)
    requires Inv(s, posted0, waiting0) && Run(s, steps).Some?
    ensures Inv(Run(s, steps).value, posted0, waiting0)
    decreases |steps|
  {
    if steps != [] {
      hide Inv, Next;
      StepInv(s, steps[0].0, steps[0].1, posted0, waiting0);
      RunInv(Next(s, steps[0].0, steps[0].1).value, steps[1..], posted0, waiting0);
    }
  }

  // What holds of every run of a new semaphore.

  /** Some run of `n` threads leads to `s` from a new semaphore. */
  ghost predicate Reachable(s: State, posted0: bool, waiting0: int, n: nat) {
    exists steps :: Run(Start(posted0, waiting0, n), steps) == Some(s)
  }

  lemma ReachableInv(s: State, posted0: bool, waiting0: int, n: nat)
    requires Reachable(s, posted0, waiting0, n)
    ensures Inv(s, posted0, waiting0)
  {
    var steps :| Run(Start(posted0, waiting0, n), steps) == Some(s);
    StartInv(posted0, waiting0, n);
    RunInv(Start(posted0, waiting0, n), steps, posted0, waiting0);
  }

  predicate Toggles(e: Event) {
    e.Posted? || e.WasReset?
  }

  /** The state after the first `k` events is what the last toggle among them left, if there was one. */
  lemma {:induction false} ReplayPrefix(posted0: bool, log: seq<Event>, k: nat)
    requires k <= |log| && Replay(posted0, log).Some?
    ensures Replay(posted0, log[..k]).Some?
  {
    if k < |log| {
      ReplayPrefix(posted0, log[..|log| - 1], k);
      assert log[..|log| - 1][..k] == log[..k];
    } else {
      assert log[..k] == log;
    }
  }

  lemma {:induction false} ReplayQuiet(posted0: bool, log: seq<Event>, i: nat, j: nat)
    requires i <= j <= |log| && forall k :: i <= k < j ==> !Toggles(log[k])
    ensures Replay(posted0, log[..j]) == Replay(posted0, log[..i])
  {
    if i < j {
      ReplayQuiet(posted0, log, i, j - 1);
      assert log[..j][..j - 1] == log[..j - 1];
    }
  }

  lemma ReplayToggle(posted0: bool, log: seq<Event>, i: nat)
    requires i < |log| && Replay(posted0, log).Some? && Toggles(log[i])
    ensures Replay(posted0, log[..i]) == Some(log[i].WasReset?) && Replay(posted0, log[..i + 1]) == Some(log[i].Posted?)
  {
    ReplayPrefix(posted0, log, i + 1);
    assert log[..i + 1][..i] == log[..i];
  }

  /** Successful posts and resets strictly alternate, the first one changing the initial state. */
  lemma PostsAndResetsAlternate(s: State, posted0: bool, waiting0: int, n: nat, i: nat, j: nat)
    requires Reachable(s, posted0, waiting0, n) && i < j <= |s.log|
    ensures j < |s.log| && Toggles(s.log[i]) && Toggles(s.log[j]) && (forall k :: i < k < j ==> !Toggles(s.log[k]))
            ==> s.log[i].Posted? != s.log[j].Posted?
    ensures Toggles(s.log[i]) && (forall k :: 0 <= k < i ==> !Toggles(s.log[k])) ==> s.log[i].Posted? == !posted0
  {
    ReachableInv(s, posted0, waiting0, n);
    var log := s.log;
    hide Reachable, Replay;
    if Toggles(log[i]) {
      ReplayToggle(posted0, log, i);
      if forall k :: 0 <= k < i ==> !Toggles(log[k]) {
        ReplayQuiet(posted0, log, 0, i);
        ReplayNothing(posted0, log);
      }
      if j < |log| && Toggles(log[j]) && (forall k :: i < k < j ==> !Toggles(log[k])) {
        ReplayToggle(posted0, log, j);
        ReplayQuiet(posted0, log, i + 1, j);
      }
    }
  }

  lemma ReplayNothing(posted0: bool, log: seq<Event>)
    ensures Replay(posted0, log[..0]) == Some(posted0)
  {
  }

  /** The waiting field counts the threads between counting themselves in and out. */
  lemma WaitingIsCount(s: State, posted0: bool, waiting0: int, n: nat)
    requires Reachable(s, posted0, waiting0, n)
    ensures s.waiting == waiting0 + CountInside(s.at)
  {
    ReachableInv(s, posted0, waiting0, n);
  }

  lemma {:induction false} CountPositive(at: seq<Place>)
    ensures CountInside(at) > 0 <==> exists t :: 0 <= t < |at| && Inside(at[t])
  {
    if at != [] {
      CountPositive(at[1..]);
      if CountInside(at[1..]) > 0 {
        var t :| 0 <= t < |at[1..]| && Inside(at[1..][t]);
        assert Inside(at[t + 1]);
      }
      forall t | 0 < t < |at| && Inside(at[t]) ensures CountInside(at[1..]) > 0 {
        assert at[1..][t - 1] == at[t];
      }
    }
  }

  /** The Close that thread `t` is about to decide is refused. */
  predicate Refused(s: State, t: nat)
    requires t < |s.at|
  {
    var r := Next(s, t, Go);
    r.Some? && r.value.at[t] == Unlocking(Close, ERROR_SEM_BUSY)
  }

  predicate SomeoneInside(s: State) {
    exists u :: 0 <= u < |s.at| && Inside(s.at[u])
  }

  /** In every run, Close is refused by the threads inside on top of what the field started with. */
  lemma CloseRefused(s: State, posted0: bool, waiting0: int, n: nat, t: nat)
    requires Reachable(s, posted0, waiting0, n) && t < |s.at| && s.at[t] == Body(Close)
    ensures Refused(s, t) <==> waiting0 + CountInside(s.at) > 0
  {
    WaitingIsCount(s, posted0, waiting0, n);
    hide Reachable;
  }

  /** Closing is refused exactly while a thread waits, provided the field started at 0. */
  lemma CloseIsBusy(s: State, posted0: bool, n: nat, t: nat)
    requires Reachable(s, posted0, 0, n) && t < |s.at| && s.at[t] == Body(Close)
    ensures Refused(s, t) <==> SomeoneInside(s)
  {
    CloseRefused(s, posted0, 0, n, t);
    hide Reachable;
    CountPositive(s.at);
  }

  lemma {:induction false} RunMore(s: State, steps: seq<(nat, Choice)>, t: nat, c: Choice)
    requires Run(s, steps).Some?
    requires var m := Run(s, steps).value; t < |m.at| && Next(m, t, c).Some?
    ensures Run(s, steps + [(t, c)]) == Next(Run(s, steps).value, t, c)
    decreases |steps|
  {
    hide Next;
    if steps == [] {
      assert steps + [(t, c)] == [(t, c)] && [(t, c)][1..] == [];
    } else {
      RunMore(Next(s, steps[0].0, steps[0].1).value, steps[1..], t, c);
      assert (steps + [(t, c)])[1..] == steps[1..] + [(t, c)];
    }
  }

  lemma ReachableNow(posted0: bool, waiting0: int, n: nat)
    ensures Reachable(Start(posted0, waiting0, n), posted0, waiting0, n)
  {
    assert Run(Start(posted0, waiting0, n), []) == Some(Start(posted0, waiting0, n));
  }

  lemma Step(s: State, posted0: bool, waiting0: int, n: nat, t: nat, c: Choice) returns (r: State)
    requires Reachable(s, posted0, waiting0, n) && t < |s.at| && Next(s, t, c).Some?
    ensures r == Next(s, t, c).value && Reachable(r, posted0, waiting0, n)
  {
    hide Next;
    var steps :| Run(Start(posted0, waiting0, n), steps) == Some(s);
    RunMore(Start(posted0, waiting0, n), steps, t, c);
    r := Next(s, t, c).value;
  }

  /** Thread `t`, idle while the mutex is free, begins a call and takes the mutex. */
  lemma Enter(s: State, posted0: bool, waiting0: int, n: nat, t: nat, call: Call) returns (r: State)
    requires Reachable(s, posted0, waiting0, n) && t < |s.at| && s.at[t] == Idle && s.owner == None
    ensures Reachable(r, posted0, waiting0, n) && r.at == s.at[t := Body(call)]
    ensures r.posted == s.posted && r.waiting == s.waiting && r.owner == Some(t)
  {
    hide Reachable;
    r := Step(s, posted0, waiting0, n, t, Begin(call));
    r := Step(r, posted0, waiting0, n, t, Go);
  }

  /** Above 0, the field refuses to close a semaphore that no thread has used. */
  lemma ClosesNever(posted0: bool, waiting0: int) returns (s: State)
    requires waiting0 > 0
    ensures Reachable(s, posted0, waiting0, 1) && s.at == [Body(Close)]
    ensures Refused(s, 0) && !SomeoneInside(s)
  {
    ReachableNow(posted0, waiting0, 1);
    hide Reachable;
    s := Enter(Start(posted0, waiting0, 1), posted0, waiting0, 1, 0, Close);
  }

  lemma ResetFirst(posted0: bool, waiting0: int) returns (s: State)
    ensures Reachable(s, posted0, waiting0, 2) && s.at == [Idle, Idle] && s.owner == None
    ensures !s.posted && s.waiting == waiting0
  {
    ReachableNow(posted0, waiting0, 2);
    hide Reachable;
    s := Start(posted0, waiting0, 2);
    if posted0 {
      s := Enter(s, posted0, waiting0, 2, 0, Reset);
      s := Step(s, posted0, waiting0, 2, 0, Go);
      s := Step(s, posted0, waiting0, 2, 0, Go);
    }
  }

  /** Below 0, it lets a thread close the semaphore on which another one sleeps. */
  lemma ClosesUnderSleeper(posted0: bool, waiting0: int) returns (s: State)
    requires waiting0 < 0
    ensures Reachable(s, posted0, waiting0, 2) && s.at == [Sleeping(false), Body(Close)]
    ensures !Refused(s, 1) && SomeoneInside(s)
  {
    s := ResetFirst(posted0, waiting0);
    hide Reachable;
    s := Enter(s, posted0, waiting0, 2, 0, Wait(false));
    s := Step(s, posted0, waiting0, 2, 0, Go);
    s := Step(s, posted0, waiting0, 2, 0, Go);
    s := Enter(s, posted0, waiting0, 2, 1, Close);
    assert Inside(s.at[0]);
  }

  /** In every run of any number of threads, Close is refused exactly while a thread waits. */
  ghost predicate ClosesRight(posted0: bool, waiting0: int) {
    forall s: State, n: nat, t: nat ::
      Reachable(s, posted0, waiting0, n) && t < |s.at| && s.at[t] == Body(Close) ==>
        (Refused(s, t) <==> SomeoneInside(s))
  }

  /** Creation never stores to the field: closing is right exactly if it happens to be 0. */
  lemma ClosesRightIff(posted0: bool, waiting0: int)
    ensures ClosesRight(posted0, waiting0) <==> waiting0 == 0
  {
    hide Reachable, Refused, SomeoneInside;
    if waiting0 > 0 {
      var s := ClosesNever(posted0, waiting0);
      assert s.at[0] == Body(Close);
    } else if waiting0 < 0 {
      var s := ClosesUnderSleeper(posted0, waiting0);
      assert s.at[1] == Body(Close);
    } else {
      forall s: State, n: nat, t: nat | Reachable(s, posted0, 0, n) && t < |s.at| && s.at[t] == Body(Close)
        ensures Refused(s, t) <==> SomeoneInside(s)
      {
        CloseIsBusy(s, posted0, n, t);
      }
    }
  }

  lemma {:induction false} SeenBefore(log: seq<Event>, t: nat, b: bool) returns (j: nat)
    requires LastSeen(log, t) == Some(b)
    ensures j < |log| && log[j] == Saw(t, b) && forall k :: j < k < |log| && log[k].t == t ==> !log[k].Called?
  {
    var last := log[|log| - 1];
    if last == Saw(t, b) {
      j := |log| - 1;
    } else {
      j := SeenBefore(log[..|log| - 1], t, b);
    }
  }

  /**
   * A wait that returned NO_ERROR saw the semaphore posted, in that call and under the mutex; one that timed out saw it
   * reset; and a wait without a timeout does not time out.
   */
  lemma WaitsAreTruthful(s: State, posted0: bool, waiting0: int, n: nat, i: nat) returns (j: nat)
    requires Reachable(s, posted0, waiting0, n)
    requires i < |s.log| && s.log[i].Returned? && (s.log[i].call.Try? || s.log[i].call.Wait?)
    ensures j < i && s.log[j] == Saw(s.log[i].t, s.log[i].result == NO_ERROR)
    ensures forall k :: j < k < i && s.log[k].t == s.log[i].t ==> !s.log[k].Called?
    ensures Replay(posted0, s.log[..j]) == Some(s.log[i].result == NO_ERROR)
    ensures s.log[i].call == Wait(false) ==> s.log[i].result == NO_ERROR
  {
    ReachableInv(s, posted0, waiting0, n);
    var log := s.log;
    hide Reachable, Replay, LastSeen;
    assert TruthfulResult(log[..i], log[i].t, log[i].call, log[i].result);
    j := SeenBefore(log[..i], log[i].t, log[i].result == NO_ERROR);
    assert log[..i][j] == log[j] && forall k :: j < k < i ==> log[..i][k] == log[k];
  }

  lemma {:induction false} OwnBefore(log: seq<Event>, t: nat, e: Event) returns (j: nat)
    requires LastOwn(log, t) == Some(e)
    ensures j < |log| && log[j] == e && forall k :: j < k < |log| ==> log[k].t != t
  {
    if log[|log| - 1].t == t {
      j := |log| - 1;
    } else {
      j := OwnBefore(log[..|log| - 1], t, e);
    }
  }

  /**
   * A post or reset that returned NO_ERROR had changed the flag itself; otherwise it says that the flag was already so,
   * and in that call it was.
   */
  lemma ChangesAreTruthful(s: State, posted0: bool, waiting0: int, n: nat, i: nat) returns (j: nat)
    requires Reachable(s, posted0, waiting0, n)
    requires i < |s.log| && s.log[i].Returned? && (s.log[i].call.Post? || s.log[i].call.Reset?)
    ensures j < i && forall k :: j < k < i ==> s.log[k].t != s.log[i].t
    ensures var t, post := s.log[i].t, s.log[i].call.Post?;
            || (s.log[i].result == 0 && s.log[j] == if post then Posted(t) else WasReset(t))
            || (s.log[i].result == (if post then 299 else 300)
                && s.log[j] == Saw(t, post) && Replay(posted0, s.log[..j]) == Some(post))
  {
    ReachableInv(s, posted0, waiting0, n);
    var log := s.log;
    hide Reachable, Replay, LastOwn, LastSeen;
    assert TruthfulChange(log[..i], log[i].t, log[i].call, log[i].result);
    j := OwnBefore(log[..i], log[i].t, LastOwn(log[..i], log[i].t).value);
    assert log[..i][j] == log[j] && forall k :: j < k < i ==> log[..i][k] == log[k];
  }

  /** A query reports the flag as it was at some moment of the call, under the mutex. */
  lemma QueriesAreTruthful(s: State, posted0: bool, waiting0: int, n: nat, i: nat) returns (j: nat)
    requires Reachable(s, posted0, waiting0, n)
    requires i < |s.log| && s.log[i].Returned? && s.log[i].call.Query?
    ensures j < i && s.log[j] == Saw(s.log[i].t, s.log[i].result == 1)
    ensures forall k :: j < k < i && s.log[k].t == s.log[i].t ==> !s.log[k].Called?
    ensures Replay(posted0, s.log[..j]) == Some(s.log[i].result == 1)
  {
    ReachableInv(s, posted0, waiting0, n);
    var log := s.log;
    hide Reachable, Replay, LastSeen;
    assert TruthfulQuery(log[..i], log[i].t, log[i].call, log[i].result);
    j := SeenBefore(log[..i], log[i].t, log[i].result == 1);
    assert log[..i][j] == log[j] && forall k :: j < k < i ==> log[..i][k] == log[k];
  }

  /** No wake-up is lost: with the semaphore posted and the mutex free, no thread is asleep. */
  lemma NoneAsleep(s: State, posted0: bool, waiting0: int, n: nat, t: nat)
    requires Reachable(s, posted0, waiting0, n) && s.posted && s.owner == None && t < |s.at|
    ensures !s.at[t].Sleeping?
  {
    ReachableInv(s, posted0, waiting0, n);
  }

  /** No deadlock: whenever some thread is in a call and not asleep, some thread can go on. */
  lemma SomeoneGoesOn(s: State, posted0: bool, waiting0: int, n: nat, t: nat) returns (u: nat)
    requires Reachable(s, posted0, waiting0, n) && t < |s.at| && !s.at[t].Idle? && !s.at[t].Sleeping?
    ensures u < |s.at| && Next(s, u, Go).Some?
  {
    ReachableInv(s, posted0, waiting0, n);
    hide Reachable;
    if s.owner.Some? {
      u := s.owner.value;
      assert Holds(s.at[u]);
    } else {
      u := t;
      assert !Holds(s.at[u]);
    }
  }
}
