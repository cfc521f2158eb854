/** When a round can still end. Drained rounds always can; others exactly when some thread
    is live. */
module Returning {
  import opened Geometry
  import opened Protocol
  import opened Invariant
  import opened Theorems
  import opened Progress
  import opened Wrappers

  // ------------------------------------------------------------- the queue is drained

  /** The queue is drained: every index below length has been claimed. */
  ghost predicate Drained(s: State) {
    Inv(s) && Yielding(s) && s.counter >= s.length
  }

  ghost predicate HostWaiting(s: State) {
    s.host.WaitSignal? || s.host.WaitStatus?
  }

  ghost function HostStepsToWait(s: State): nat {
    match s.host
    case Send(i, e) =>
      if i < |s.workers| then
        2 + 2 * (|s.workers| - i) + (if s.workers[i].signal == e then 0 else 1)
      else 0
    case HostLoop(Load) => 1
    case HostLoop(Call(i, done)) => 2 + Left(s, s.context, i, done)
    case HostLoop(Cas(e)) => 3 + Left(s, s.context, e, 0)
    case _ => 0
  }

  lemma HostStepToWait(s: State)
    requires Drained(s) && !HostWaiting(s)
    ensures var s' := HostDo(s, false);
            && s'.counter >= s'.length && HostStepsToWait(s') < HostStepsToWait(s)
            && (s'.host.Idle? ==> s'.host.ok)
            && !s'.host.SetContext?
  {
    assert ThreadOk(s, |s.workers|);
    if s.host.Send? {
      var i := s.host.target;
      assert WorkerOk(s.host, s.context, i, s.workers[i]);
      assert i + 1 < |s.workers| ==> WorkerOk(s.host, s.context, i + 1, s.workers[i + 1]);
    }
  }

  /** Once the queue is drained the host, run on its own, gets to waiting (or returns, if
      there are no workers). */
  lemma {:induction false} HostCanWait(s: State) returns (evs: seq<Event>)
    requires Drained(s)
    ensures Legal(s, evs) && Strong(evs) && Internal(evs)
    ensures var s' := Run(s, evs);
            || s'.host == Idle(true)
            || (Drained(s') && HostWaiting(s'))
    decreases HostStepsToWait(s)
  {
    if HostWaiting(s) {
      evs := [];
    } else {
      var e := HostStep(false);
      HostStepToWait(s);
      assert Strong([e]);
      InvDo(s, e);
      if Do(s, e).host.Idle? {
        evs := [e];
        RunFirst(s, e, []);
      } else {
        var rest := HostCanWait(Do(s, e));
        evs := [e] + rest;
        RunFirst(s, e, rest);
      }
    }
  }

  /** About to exchange, with nothing in the cell. */
  ghost predicate AtRest(w: Worker) {
    w.pc == Poll && w.signal == NoSignal && w.status == Waiting
  }

  ghost function StepsToRest(s: State, t: nat): nat
    requires t < |s.workers|
  {
    match s.workers[t].pc
    case SetWaiting => 1
    case Poll => if s.workers[t].signal == Start then 8 else 0
    case Release => 1
    case ReadContext => 7
    case SetRunning => 6
    case Unlock => 5
    case Rearm => 4
    case Loop(Load) => 3
    case Receive => 5
    case Loop(Call(i, done)) => 6 + Left(s, s.workers[t].local, i, done)
    case Loop(Cas(e)) => 7 + Left(s, s.workers[t].local, e, 0)
    case Quiet => 2
    case _ => 0
  }

  lemma WorkerStepToRest(s: State, t: nat)
    requires Drained(s) && HostWaiting(s) && t < |s.workers| && !AtRest(s.workers[t])
    ensures s.workers[t].pc != Gone
    ensures var s' := WorkerDo(s, t, false);
            s'.host == s.host && s'.counter >= s'.length && StepsToRest(s', t) < StepsToRest(s, t)
  {
    assert WorkerOk(s.host, s.context, t, s.workers[t]);
    assert ThreadOk(s, t);
  }

  lemma {:induction false} WorkerCanRest(s: State, t: nat) returns (evs: seq<Event>)
    requires Drained(s) && HostWaiting(s) && t < |s.workers|
    ensures Legal(s, evs) && Strong(evs) && Internal(evs)
    ensures var s' := Run(s, evs);
            && Drained(s') && s'.host == s.host && |s'.workers| == |s.workers| && AtRest(s'.workers[t])
            && forall u :: 0 <= u < |s.workers| && u != t ==> s'.workers[u] == s.workers[u]
    decreases StepsToRest(s, t)
  {
    if AtRest(s.workers[t]) {
      evs := [];
    } else {
      var e := WorkerStep(t, false);
      WorkerStepToRest(s, t);
      assert Strong([e]);
      InvDo(s, e);
      assert WorkerOk(s.host, s.context, t, s.workers[t]);
      WorkerKeepsOk(s, t, false);
      var rest := WorkerCanRest(Do(s, e), t);
      evs := [e] + rest;
      RunFirst(s, e, rest);
    }
  }

  /** The workers from `t` on can be brought to rest one after the other. */
  lemma {:induction false} AllCanRest(s: State, t: nat) returns (evs: seq<Event>)
    requires Drained(s) && HostWaiting(s) && t <= |s.workers|
    requires forall u :: 0 <= u < t ==> AtRest(s.workers[u])
    ensures Legal(s, evs) && Strong(evs) && Internal(evs)
    ensures var s' := Run(s, evs);
            && Drained(s') && HostWaiting(s')
            && forall u :: 0 <= u < |s'.workers| ==> AtRest(s'.workers[u])
    decreases |s.workers| - t
  {
    if t == |s.workers| {
      evs := [];
    } else {
      var one := WorkerCanRest(s, t);
      var rest := AllCanRest(Run(s, one), t + 1);
      evs := one + rest;
      RunAppend(s, one, rest);
    }
  }

  ghost function StepsToReturn(s: State): nat {
    match s.host
    case WaitSignal(i) => if i < |s.workers| then 2 * (|s.workers| - i) else 0
    case WaitStatus(i) => if i < |s.workers| then 2 * (|s.workers| - i) - 1 else 0
    case _ => 0
  }

  /** With every worker at rest the waiting host returns. */
  lemma {:induction false} HostCanReturn(s: State) returns (evs: seq<Event>)
    requires Drained(s) && HostWaiting(s)
    requires forall u :: 0 <= u < |s.workers| ==> AtRest(s.workers[u])
    ensures Legal(s, evs) && Strong(evs) && Internal(evs)
    ensures Run(s, evs).host == Idle(true)
    decreases StepsToReturn(s)
  {
    var e := HostStep(false);
    assert Strong([e]);
    InvDo(s, e);
    if Do(s, e).host.Idle? {
      evs := [e];
      RunFirst(s, e, []);
    } else {
      var rest := HostCanReturn(Do(s, e));
      evs := [e] + rest;
      RunFirst(s, e, rest);
    }
  }

  lemma InternalAppend(a: seq<Event>, b: seq<Event>)
    requires Strong(a) && Strong(b) && Internal(a) && Internal(b)
    ensures Strong(a + b) && Internal(a + b)
  {
  }

  lemma DrainedCanReturn(s: State) returns (evs: seq<Event>)
    requires Drained(s)
    ensures Legal(s, evs) && Strong(evs) && Internal(evs)
    ensures Run(s, evs).host == Idle(true)
  {
    evs := HostCanWait(s);
    var s' := Run(s, evs);
    if HostWaiting(s') {
      var rest := WaitingCanReturn(s');
      RunAppend(s, evs, rest);
      InternalAppend(evs, rest);
      evs := evs + rest;
    }
  }

  lemma WaitingCanReturn(s: State) returns (evs: seq<Event>)
    requires Drained(s) && HostWaiting(s)
    ensures Legal(s, evs) && Strong(evs) && Internal(evs)
    ensures Run(s, evs).host == Idle(true)
  {
    var a := AllCanRest(s, 0);
    var b := HostCanReturn(Run(s, a));
    RunAppend(s, a, b);
    InternalAppend(a, b);
    evs := a + b;
  }

  // ------------------------------------------------------------ tasks are left

  /** As long as one thread is live it can take the tasks that are left. */
  lemma {:induction false} CanDrain(s: State, t: nat) returns (evs: seq<Event>)
    requires Inv(s) && Yielding(s) && (s.counter < s.length ==> Live(s, t))
    ensures Legal(s, evs) && Strong(evs) && Internal(evs) && Drained(Run(s, evs))
    decreases s.length - s.counter
  {
    if s.counter >= s.length {
      evs := [];
    } else {
      var lead := LiveCanClaim(s, t);
      SoloIsStrong(lead, t, |s.workers|);
      var rest := CanDrain(Run(s, lead), t);
      RunAppend(s, lead, rest);
      InternalAppend(lead, rest);
      evs := lead + rest;
    }
  }

  lemma LiveCanReturn(s: State, t: nat) returns (evs: seq<Event>)
    requires Inv(s) && Yielding(s) && (s.counter < s.length ==> Live(s, t))
    ensures Legal(s, evs) && Strong(evs) && Internal(evs)
    ensures Run(s, evs).host == Idle(true)
  {
    var a := CanDrain(s, t);
    var b := DrainedCanReturn(Run(s, a));
    RunAppend(s, a, b);
    InternalAppend(a, b);
    evs := a + b;
  }

  /** Tasks are left and no thread is live: each is parked without a START it could still
      receive, or lost a CAS. */
  ghost predicate Hung(s: State) {
    s.counter < s.length && forall t: nat :: !Live(s, t)
  }

  lemma HungWorker(s: State, i: nat, spurious: bool)
    requires Inv(s) && i < |s.workers| && s.counter < s.length && !WorkerLive(s, s.workers[i])
    ensures var s' := WorkerDo(s, i, spurious);
      && |s'.workers| == |s.workers| && s'.counter == s.counter && s'.image == s.image
      && !WorkerLive(s', s'.workers[i])
  {
    assert WorkerOk(s.host, s.context, i, s.workers[i]);
  }

  lemma HungHost(s: State, spurious: bool)
    requires Inv(s) && Yielding(s) && s.counter < s.length && !HostLive(s)
    ensures var s' := HostDo(s, spurious);
      && s'.workers == s.workers && s'.counter == s.counter && s'.image == s.image
      && s'.host.HostLoop? && !HostLive(s')
  {
  }

  lemma HungStep(s: State, e: Event)
    requires Inv(s) && Yielding(s) && Hung(s) && Enabled(s, e)
    ensures var s' := Do(s, e);
      Inv(s') && Yielding(s') && Hung(s') && s'.counter == s.counter && s'.image == s.image
  {
    StaysYielding(s, e);
    var s', n := Do(s, e), |s.workers|;
    assert !Live(s, n);
    match e
    case WorkerStep(i, spurious) =>
      assert !Live(s, i);
      HungWorker(s, i, spurious);
      CounterAfterWorker(s, i, spurious);
      assert WorkerOk(s.host, s.context, i, s.workers[i]);
      WorkerKeepsOk(s, i, spurious);
      forall t: nat ensures !Live(s', t) {
        assert !Live(s, t);
      }
    case HostStep(spurious) =>
      HungHost(s, spurious);
      forall t: nat ensures !Live(s', t) {
        assert !Live(s, t);
      }
    case _ =>
  }

  /** A hung round stays hung: whatever the threads do, no task is taken, no pixel is
      written and the host does not return. */
  lemma {:induction false} HungForGood(s: State, evs: seq<Event>)
    requires Inv(s) && Yielding(s) && Hung(s) && Legal(s, evs)
    ensures var s' := Run(s, evs); Yielding(s') && Hung(s') && s'.counter == s.counter && s'.image == s.image
    decreases |evs|
  {
    if evs != [] {
      HungStep(s, evs[0]);
      HungForGood(Do(s, evs[0]), evs[1..]);
    }
  }

  /** Some run brings the host back from rsched_host_yield. */
  ghost predicate CanReturn(s: State) {
    exists evs :: Legal(s, evs) && Run(s, evs).host.Idle?
  }

  /** Spurious failures allowed, a round can end if and only if it is not hung. */
  lemma CanReturnIff(n: nat, s: State)
    requires Reachable(n, s) && Yielding(s)
    ensures CanReturn(s) <==> !Hung(s)
  {
    ReachableInv(n, s);
    if Hung(s) {
      forall evs | Legal(s, evs) ensures !Run(s, evs).host.Idle? {
        HungForGood(s, evs);
      }
    } else {
      var t: nat :| s.counter < s.length ==> Live(s, t);
      var evs := LiveCanReturn(s, t);
    }
  }

  /** No deadlock and no trap without spurious failures: from every state a round can get
      into, lost STARTs and spinning losers included, some schedule of the threads lets
      rsched_host_yield return with success. */
  lemma RoundCanReturn(n: nat, s: State) returns (evs: seq<Event>)
    requires StrongReachable(n, s) && Yielding(s)
    ensures Legal(s, evs) && Strong(evs) && Internal(evs)
    ensures Run(s, evs).host == Idle(true)
  {
    StrongReachableSound(n, s);
    if s.counter < s.length {
      LeaderIsLive(s);
    }
    evs := LiveCanReturn(s, LastPopper(s));
  }
}
