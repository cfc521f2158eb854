/** What the scheduler guarantees, over every interleaving and any number of workers:
    the barrier, exactly-once execution, and the image a round leaves behind. */
module Theorems {
  import opened Geometry
  import opened Protocol
  import opened Invariant
  import opened Wrappers

  // --------------------------------------------------------------- barrier

  /** Whenever the host is between calls, every worker is parked with nothing pending,
      no thread is inside pop or the user function, and nobody is down. */
  lemma BarrierAtReturn(n: nat, s: State)
    requires Reachable(n, s) && s.host.Idle?
    ensures |s.workers| == n
    ensures forall j :: 0 <= j < n ==> Parked(s.workers[j])
    ensures forall t: nat :: WorkOf(s, t) == None
  {
    ReachableInv(n, s);
    forall j | 0 <= j < n ensures Parked(s.workers[j]) {
      assert WorkerOk(s.host, s.context, j, s.workers[j]);
    }
    forall t: nat ensures WorkOf(s, t) == None {
      IdleMeansEmpty(s, t);
    }
  }

  ghost predicate OnlyWorkers(evs: seq<Event>) {
    forall k :: 0 <= k < |evs| ==> evs[k].WorkerStep?
  }

  /** Until the host's next call the workers keep spinning but touch nothing else. */
  lemma {:induction false} BarrierHolds(n: nat, s: State, evs: seq<Event>)
    requires Reachable(n, s) && s.host.Idle? && Legal(s, evs) && OnlyWorkers(evs)
    ensures var s' := Run(s, evs);
            && s' == s.(workers := s'.workers)
            && forall j :: 0 <= j < |s'.workers| ==> Parked(s'.workers[j])
    decreases |evs|
  {
    BarrierAtReturn(n, s);
    if evs != [] {
      var i := evs[0].id;
      assert Parked(s.workers[i]);
      ReachableDo(n, s, evs[0]);
      assert OnlyWorkers(evs[1..]);
      BarrierHolds(n, Do(s, evs[0]), evs[1..]);
    }
  }

  // --------------------------------------------------------------- signals

  /** The unconditional stores of NONE inside a worker's task loop never discard a
      signal: at the empty queue and at the per-task exchange the cell holds NONE, and
      at the per-task unlock it holds the worker's own LOCKED. */
  lemma RunningWorkerLosesNoSignal(n: nat, s: State, i: nat)
    requires Reachable(n, s) && i < n
    ensures |s.workers| == n
    ensures s.workers[i].pc in {Quiet, Receive} ==> s.workers[i].signal == NoSignal
    ensures s.workers[i].pc == Rearm ==> s.workers[i].signal == Locked
    ensures s.workers[i].pc == Unlock ==> s.workers[i].signal == Locked
  {
    ReachableInv(n, s);
    assert WorkerOk(s.host, s.context, i, s.workers[i]);
  }

  /** The host never takes a signal back: its exchange turns no START into anything else. */
  lemma HostKeepsStart(s: State, spurious: bool, i: nat)
    requires SignalInv(s) && !s.host.Idle? && i < |s.workers| && s.workers[i].signal == Start
    ensures |HostDo(s, spurious).workers| == |s.workers| && HostDo(s, spurious).workers[i].signal == Start
  {
  }

  /** A pending START leaves the cell in two ways only: the worker receives it, or the
      spinning worker's unlock overwrites it. */
  lemma StartIsReceivedOrDropped(n: nat, s: State, e: Event, i: nat)
    requires Reachable(n, s) && Enabled(s, e) && i < n
    ensures |s.workers| == n == |Do(s, e).workers|
    ensures s.workers[i].signal == Start && Do(s, e).workers[i].signal != Start ==>
              || (s.workers[i].pc == Poll && Do(s, e).workers[i].pc == ReadContext)
              || (s.workers[i].pc == Release && Parked(Do(s, e).workers[i]))
  {
    ReachableInv(n, s);
    InvDo(s, e);
    assert WorkerOk(s.host, s.context, i, s.workers[i]);
    match e
    case WorkerStep(k, spurious) =>
      if k == i {
        WorkerKeepsOk(s, i, spurious);
      } else if s.workers[k].pc.Loop? {
        InsideLoop(s, k, spurious);
      } else {
        OutsideLoop(s, k, spurious);
      }
    case HostStep(spurious) =>
      if s.workers[i].signal == Start {
        HostKeepsStart(s, spurious, i);
      }
    case _ =>
  }

  // -------------------------------------------------------------------- pop

  /** No two threads work on the same index, and an index being worked on is claimed, by
      that thread, and not finished. */
  lemma WorkIsExclusive(n: nat, s: State, t: nat, u: nat, i: nat)
    requires Reachable(n, s) && Holds(s, t, i) && Holds(s, u, i)
    ensures t == u && i < s.counter == |s.claims| <= s.length + 1
    ensures s.claims[i] == t && s.runs[i] == 0
  {
    ReachableInv(n, s);
    assert ThreadOk(s, t) && ThreadOk(s, u);
  }

  /** The claims grow by the thread that moves, if at all. */
  ghost predicate TakesNext(s: State, s': State, t: nat) {
    s'.claims == s.claims || (s'.claims == s.claims + [t] && Holds(s', t, |s.claims|))
  }

  lemma WorkerTakesNext(s: State, i: nat, spurious: bool)
    requires QueueInv(s) && i < |s.workers|
    ensures TakesNext(s, WorkerDo(s, i, spurious), i)
  {
    if !s.workers[i].pc.Loop? {
      OutsideLoop(s, i, spurious);
    }
  }

  lemma HostTakesNext(s: State, spurious: bool)
    requires QueueInv(s) && HostInRange(s)
    ensures TakesNext(s, HostDo(s, spurious), |s.workers|)
  {
  }

  /** A step of thread `t` leaves the claims alone or adds one: the next index in order,
      which `t` then holds. Successful pops hand out 0, 1, 2, ..., each once. */
  lemma PopTakesNext(n: nat, s: State, e: Event, t: nat)
    requires Reachable(n, s) && Enabled(s, e)
    requires (e.WorkerStep? && t == e.id) || (e.HostStep? && t == n)
    ensures var s' := Do(s, e);
      && s'.counter == |s'.claims| <= s.length + 1
      && (s'.claims == s.claims || (s'.claims == s.claims + [t] && Holds(s', t, |s.claims|)))
  {
    ReachableInv(n, s);
    InvDo(s, e);
    match e
    case WorkerStep(i, spurious) =>
      WorkerTakesNext(s, i, spurious);
      WorkerKeepsOk(s, i, spurious) by {
        assert WorkerOk(s.host, s.context, i, s.workers[i]);
      }
    case HostStep(spurious) => HostTakesNext(s, spurious);
    case _ =>
  }

  // ---------------------------------------------------------- exactly once

  /** Steps of the threads themselves, as opposed to new calls on the scheduler. */
  ghost predicate Internal(evs: seq<Event>) {
    forall k :: 0 <= k < |evs| ==> evs[k].WorkerStep? || evs[k].HostStep?
  }

  /** `evs` is one whole rsched_host_yield from `s`: the call, then any interleaving of
      the threads' steps up to the host's return and possibly beyond it. */
  ghost predicate Round(s: State, evs: seq<Event>) {
    && s.host.Idle? && s.context.Some?
    && Legal(s, [Yield] + evs) && Internal(evs)
    && Run(s, [Yield] + evs).host.Idle?
  }

  /** What holds of `s` at every point of the round begun at `s0`. */
  ghost predicate During(s0: State, s: State) {
    && Inv(s) && |s.workers| == |s0.workers|
    && !s.host.SetContext?
    && (s.host.Idle? ==> s.counter >= s.length && s.host.ok)
    && s.length == s0.length && s.slots == s0.slots && s.context == s0.context
    && s.total + s0.runs == s0.total + s.runs
  }

  lemma OneMoreRun(total: multiset<nat>, runs: multiset<nat>, total0: multiset<nat>, runs0: multiset<nat>, i: nat)
    requires total + runs0 == total0 + runs
    ensures (total + multiset{i}) + runs0 == total0 + (runs + multiset{i})
  {
    assert (total + multiset{i}) + runs0 == (total + runs0) + multiset{i};
    assert total0 + (runs + multiset{i}) == (total0 + runs) + multiset{i};
  }

  lemma DuringWorker(s0: State, s: State, i: nat, spurious: bool)
    requires During(s0, s) && i < |s.workers|
    ensures var s' := WorkerDo(s, i, spurious);
      && s'.host == s.host && s'.length == s.length && s'.slots == s.slots && s'.context == s.context
      && s'.counter >= s.counter && s'.total + s0.runs == s0.total + s'.runs
  {
    if !s.workers[i].pc.Loop? {
      OutsideLoop(s, i, spurious);
    } else if s.workers[i].pc.work.Call? {
      OneMoreRun(s.total, s.runs, s0.total, s0.runs, s.workers[i].pc.work.task);
    }
  }

  lemma DuringHost(s0: State, s: State, spurious: bool)
    requires During(s0, s) && !s.host.Idle?
    ensures var s' := HostDo(s, spurious);
      && s'.length == s.length && s'.slots == s.slots && s'.context == s.context && !s'.host.SetContext?
      && (s'.host.Idle? ==> s'.counter >= s'.length && s'.host.ok)
      && s'.total + s0.runs == s0.total + s'.runs
  {
    if s.host.WaitStatus? {
      var i := s.host.target;
      assert WorkerOk(s.host, s.context, i, s.workers[i]);
    } else if s.host.HostLoop? && s.host.work.Call? {
      OneMoreRun(s.total, s.runs, s0.total, s0.runs, s.host.work.task);
    }
  }

  lemma DuringStep(s0: State, s: State, e: Event)
    requires During(s0, s) && Enabled(s, e) && (e.WorkerStep? || e.HostStep?)
    ensures During(s0, Do(s, e))
  {
    InvDo(s, e);
    match e
    case WorkerStep(i, spurious) => DuringWorker(s0, s, i, spurious);
    case HostStep(spurious) => DuringHost(s0, s, spurious);
  }

  lemma {:induction false} DuringRun(s0: State, s: State, evs: seq<Event>)
    requires During(s0, s) && Legal(s, evs) && Internal(evs)
    ensures During(s0, Run(s, evs))
    decreases |evs|
  {
    if evs != [] {
      DuringStep(s0, s, evs[0]);
      assert Internal(evs[1..]);
      DuringRun(s0, Do(s, evs[0]), evs[1..]);
    }
  }

  lemma NothingRunYet(s: State)
    requires Inv(s) && s.counter == 0
    ensures s.runs == multiset{} && s.claims == []
  {
    forall i: int ensures s.runs[i] == 0 {
      if i >= 0 {
        assert IndexOk(s, i);
      }
    }
  }

  lemma RoundStarts(n: nat, s: State, evs: seq<Event>)
    requires Reachable(n, s) && Round(s, evs)
    ensures Enabled(s, Yield) && Legal(Do(s, Yield), evs)
    ensures Run(s, [Yield] + evs) == Run(Do(s, Yield), evs)
    ensures During(s, Do(s, Yield))
  {
    ReachableInv(n, s);
    InvDo(s, Yield);
    assert ([Yield] + evs)[1..] == evs;
  }

  /** When rsched_host_yield returns it has succeeded, and since the last reset, however many
      yields ago that was, each task index was claimed by exactly one thread and its call
      finished exactly once. At most one claim went past the queue's length, to the one
      index behind it. */
  lemma ExactlyOnce(n: nat, s: State, evs: seq<Event>)
    requires Reachable(n, s) && Round(s, evs)
    ensures var s' := Run(s, [Yield] + evs);
            && s'.host == Idle(true)
            && s'.length == s.length <= |s'.claims| <= s.length + 1
            && (forall i: nat :: i < |s'.claims| ==> s'.claims[i] <= n && s'.runs[i] == 1)
            && (forall i: nat :: i >= |s'.claims| ==> s'.runs[i] == 0)
            && s'.total + s.runs == s.total + s'.runs
  {
    RoundStarts(n, s, evs);
    DuringRun(s, Do(s, Yield), evs);
    var s' := Run(s, [Yield] + evs);
    ReachableInv(n, s);
    forall i: nat
      ensures i < |s'.claims| ==> s'.claims[i] <= n && s'.runs[i] == 1
      ensures i >= |s'.claims| ==> s'.runs[i] == 0
    {
      assert IndexOk(s', i);
      if i < |s'.claims| {
        IdleMeansEmpty(s', s'.claims[i]);
      }
    }
  }

  /** `rounds` is a run of the benchmark loop: yield, requeue, yield, requeue, ... */
  ghost predicate Rounds(s: State, rounds: seq<seq<Event>>)
    decreases |rounds|
  {
    rounds == []
    || (Round(s, rounds[0]) && Rounds(Do(Run(s, [Yield] + rounds[0]), Requeue), rounds[1..]))
  }

  ghost function AfterRounds(s: State, rounds: seq<seq<Event>>): State
    requires Rounds(s, rounds)
    decreases |rounds|
  {
    if rounds == [] then s
    else AfterRounds(Do(Run(s, [Yield] + rounds[0]), Requeue), rounds[1..])
  }

  /** One yield right after a reset, and the next reset. */
  lemma OneRound(n: nat, s: State, evs: seq<Event>)
    requires Reachable(n, s) && s.counter == 0 && Round(s, evs)
    ensures var mid := Run(s, [Yield] + evs);
            && Enabled(mid, Requeue) && Reachable(n, Do(mid, Requeue))
            && Do(mid, Requeue).counter == 0 && Do(mid, Requeue).host.Idle? && mid.length == s.length
            && forall i: nat :: i < s.length ==> Do(mid, Requeue).total[i] == s.total[i] + 1
  {
    var mid := Run(s, [Yield] + evs);
    ReachableInv(n, s);
    NothingRunYet(s);
    ExactlyOnce(n, s, evs);
    assert mid.total == s.total + mid.runs;
    ReachableRun(n, s, [Yield] + evs);
    ReachableDo(n, mid, Requeue);
  }

  /** k rounds of yield and requeue finish every task exactly k times, and the counter is
      back at zero with no thread inside pop, so no stale expected value survives. */
  lemma {:induction false} EveryTaskOncePerRound(n: nat, s: State, rounds: seq<seq<Event>>)
    requires Reachable(n, s) && s.counter == 0 && s.host.Idle? && Rounds(s, rounds)
    ensures var s' := AfterRounds(s, rounds);
            && Reachable(n, s') && s'.counter == 0 && s'.host.Idle? && s'.length == s.length
            && (forall t: nat :: WorkOf(s', t) == None)
            && (forall i: nat :: i < s.length ==> s'.total[i] == s.total[i] + |rounds|)
    decreases |rounds|
  {
    if rounds == [] {
      BarrierAtReturn(n, s);
    } else {
      OneRound(n, s, rounds[0]);
      EveryTaskOncePerRound(n, Do(Run(s, [Yield] + rounds[0]), Requeue), rounds[1..]);
    }
  }

  // ----------------------------------------------------------------- image

  /** The first `k` stores have reached the image with the value `goal` has there. */
  ghost predicate Painted(image: seq<real>, goal: seq<real>, stores: seq<Store>, k: nat) {
    && k <= |stores|
    && forall j :: 0 <= j < k ==>
         stores[j].at < |goal| && stores[j].at < |image| && image[stores[j].at] == goal[stores[j].at]
  }

  /** Every store of every queued tile, and of the one slot behind them if there is one,
      agrees with `goal`. */
  ghost predicate AgreesWith(s: State, goal: seq<real>) {
    && s.context.Some? && |s.image| == |goal|
    && forall i: nat, j: nat :: i <= s.length && i < |s.slots| && j < |s.context.value(s.slots[i])| ==>
         var st := s.context.value(s.slots[i])[j]; st.at < |goal| && st.value == goal[st.at]
  }

  ghost predicate Covered(s: State, p: nat)
    requires s.context.Some? && s.length <= |s.slots|
  {
    exists i: nat :: i < s.length && Reaches(s.context.value(s.slots[i]), p)
  }

  /** Every pixel of `goal` is written by some queued tile. */
  ghost predicate Covers(s: State, goal: seq<real>) {
    && s.context.Some? && s.length <= |s.slots|
    && forall p: nat :: p < |goal| ==> Covered(s, p)
  }

  ghost predicate CallPainted(s: State, goal: seq<real>, t: nat) {
    match WorkOf(s, t)
    case Some(Call(i, done)) =>
      i <= s.length && Painted(s.image, goal, StoresOf(s, s.context, i), done)
    case _ => true
  }

  ghost predicate TaskPainted(s: State, goal: seq<real>, i: nat) {
    s.runs[i] > 0 ==>
      (i <= s.length && Painted(s.image, goal, StoresOf(s, s.context, i), |StoresOf(s, s.context, i)|))
  }

  ghost predicate PaintInv(s: State, goal: seq<real>) {
    && AgreesWith(s, goal)
    && (forall t: nat :: CallPainted(s, goal, t))
    && (forall i: nat :: TaskPainted(s, goal, i))
  }

  /** The context a thread works with is the one last set. */
  lemma LocalContext(s: State, t: nat)
    requires SignalInv(s) && t < |s.workers| && s.workers[t].pc.Loop?
    ensures s.workers[t].local == s.context
  {
    assert WorkerOk(s.host, s.context, t, s.workers[t]);
  }

  /** A step that neither stores nor finishes a call. */
  lemma PaintFrame(s: State, s': State, goal: seq<real>, t: nat)
    requires PaintInv(s, goal)
    requires s'.context == s.context && s'.slots == s.slots && s'.length == s.length
    requires s'.runs == s.runs && s'.image == s.image
    requires forall u: nat {:trigger WorkOf(s', u)} :: u != t ==> WorkOf(s', u) == WorkOf(s, u)
    requires CallPainted(s', goal, t)
    ensures PaintInv(s', goal)
  {
    forall u: nat ensures CallPainted(s', goal, u) {
      assert CallPainted(s, goal, u);
    }
    forall i: nat ensures TaskPainted(s', goal, i) {
      assert TaskPainted(s, goal, i);
    }
  }

  /** A correct store keeps every pixel that was already right. */
  lemma PaintedStays(image: seq<real>, goal: seq<real>, stores: seq<Store>, k: nat, st: Store)
    requires Painted(image, goal, stores, k)
    requires st.at < |goal| && st.value == goal[st.at]
    ensures Painted(ApplyStore(image, st), goal, stores, k)
  {
  }

  lemma CallStaysPainted(s: State, s': State, goal: seq<real>, u: nat, st: Store)
    requires CallPainted(s, goal, u) && st.at < |goal| && st.value == goal[st.at]
    requires s'.context == s.context && s'.slots == s.slots && s'.length == s.length
    requires s'.image == ApplyStore(s.image, st) && WorkOf(s', u) == WorkOf(s, u)
    ensures CallPainted(s', goal, u)
  {
    match WorkOf(s, u)
    case Some(Call(k, d)) => PaintedStays(s.image, goal, StoresOf(s, s.context, k), d, st);
    case _ =>
  }

  lemma TaskStaysPainted(s: State, s': State, goal: seq<real>, k: nat, st: Store)
    requires TaskPainted(s, goal, k) && st.at < |goal| && st.value == goal[st.at]
    requires s'.context == s.context && s'.slots == s.slots && s'.length == s.length && s'.runs == s.runs
    requires s'.image == ApplyStore(s.image, st)
    ensures TaskPainted(s', goal, k)
  {
    if s.runs[k] > 0 {
      PaintedStays(s.image, goal, StoresOf(s, s.context, k), |StoresOf(s, s.context, k)|, st);
    }
  }

  /** Thread `t` makes store `done` of its call for slot `i`. */
  lemma PaintStore(s: State, s': State, goal: seq<real>, t: nat, i: nat, done: nat)
    requires PaintInv(s, goal) && WorkOf(s, t) == Some(Call(i, done))
    requires i <= s.length && done < |StoresOf(s, s.context, i)|
    requires s'.context == s.context && s'.slots == s.slots && s'.length == s.length && s'.runs == s.runs
    requires s'.image == ApplyStore(s.image, StoresOf(s, s.context, i)[done])
    requires WorkOf(s', t) == Some(Call(i, done + 1))
    requires forall u: nat {:trigger WorkOf(s', u)} :: u != t ==> WorkOf(s', u) == WorkOf(s, u)
    ensures PaintInv(s', goal)
  {
    var st := StoresOf(s, s.context, i)[done];
    assert st.at < |goal| && st.value == goal[st.at];
    assert CallPainted(s', goal, t) by {
      assert CallPainted(s, goal, t);
      PaintedStays(s.image, goal, StoresOf(s, s.context, i), done, st);
    }
    forall u: nat | u != t ensures CallPainted(s', goal, u) {
      assert WorkOf(s', u) == WorkOf(s, u);
      CallStaysPainted(s, s', goal, u, st);
    }
    forall k: nat ensures TaskPainted(s', goal, k) {
      TaskStaysPainted(s, s', goal, k, st);
    }
  }

  /** A step that finishes the call of task `i`. */
  lemma PaintFinish(s: State, s': State, goal: seq<real>, t: nat, i: nat)
    requires PaintInv(s, goal) && i <= s.length
    requires s'.context == s.context && s'.slots == s.slots && s'.length == s.length
    requires s'.runs == s.runs + multiset{i} && s'.image == s.image
    requires Painted(s.image, goal, StoresOf(s, s.context, i), |StoresOf(s, s.context, i)|)
    requires forall u: nat {:trigger WorkOf(s', u)} :: u != t ==> WorkOf(s', u) == WorkOf(s, u)
    requires CallPainted(s', goal, t)
    ensures PaintInv(s', goal)
  {
    forall u: nat ensures CallPainted(s', goal, u) {
      assert CallPainted(s, goal, u);
    }
    forall k: nat ensures TaskPainted(s', goal, k) {
      assert TaskPainted(s, goal, k);
    }
  }

  lemma PaintWorkerCall(s: State, goal: seq<real>, i: nat, task: nat, done: nat, spurious: bool)
    requires Inv(s) && PaintInv(s, goal) && i < |s.workers| && s.workers[i].pc == Loop(Call(task, done))
    ensures PaintInv(WorkerDo(s, i, spurious), goal)
  {
    var s' := WorkerDo(s, i, spurious);
    assert CallPainted(s, goal, i) && ThreadOk(s, i);
    LocalContext(s, i);
    if done < |StoresOf(s, s.context, task)| {
      PaintStore(s, s', goal, i, task, done);
    } else {
      PaintFinish(s, s', goal, i, task);
    }
  }

  lemma PaintWorker(s: State, goal: seq<real>, i: nat, spurious: bool)
    requires Inv(s) && PaintInv(s, goal) && i < |s.workers|
    ensures PaintInv(WorkerDo(s, i, spurious), goal)
  {
    if !s.workers[i].pc.Loop? {
      OutsideLoop(s, i, spurious);
      PaintFrame(s, Put(s, i, WorkerDo(s, i, spurious).workers[i]), goal, i);
    } else if s.workers[i].pc.work.Call? {
      PaintWorkerCall(s, goal, i, s.workers[i].pc.work.task, s.workers[i].pc.work.done, spurious);
    } else {
      assert ThreadOk(s, i);
      PaintFrame(s, WorkerDo(s, i, spurious), goal, i);
    }
  }

  lemma PaintHostCall(s: State, goal: seq<real>, task: nat, done: nat, spurious: bool)
    requires Inv(s) && PaintInv(s, goal) && s.host == HostLoop(Call(task, done))
    ensures PaintInv(HostDo(s, spurious), goal)
  {
    var s', n := HostDo(s, spurious), |s.workers|;
    assert CallPainted(s, goal, n) && ThreadOk(s, n);
    if done < |StoresOf(s, s.context, task)| {
      PaintStore(s, s', goal, n, task, done);
    } else {
      PaintFinish(s, s', goal, n, task);
    }
  }

  lemma PaintHost(s: State, goal: seq<real>, spurious: bool)
    requires Inv(s) && PaintInv(s, goal) && !s.host.Idle?
    ensures PaintInv(HostDo(s, spurious), goal)
  {
    if s.host.HostLoop? && s.host.work.Call? {
      PaintHostCall(s, goal, s.host.work.task, s.host.work.done, spurious);
    } else {
      assert ThreadOk(s, |s.workers|);
      PaintFrame(s, HostDo(s, spurious), goal, |s.workers|);
    }
  }

  lemma {:induction false} PaintRun(s0: State, s: State, goal: seq<real>, evs: seq<Event>)
    requires During(s0, s) && PaintInv(s, goal) && Legal(s, evs) && Internal(evs)
    ensures PaintInv(Run(s, evs), goal)
    decreases |evs|
  {
    if evs != [] {
      if evs[0].WorkerStep? {
        PaintWorker(s, goal, evs[0].id, evs[0].spurious);
      } else {
        PaintHost(s, goal, evs[0].spurious);
      }
      DuringStep(s0, s, evs[0]);
      assert Internal(evs[1..]);
      PaintRun(s0, Do(s, evs[0]), goal, evs[1..]);
    }
  }

  lemma PaintStarts(n: nat, s: State, goal: seq<real>)
    requires Reachable(n, s) && s.counter == 0 && s.host.Idle? && AgreesWith(s, goal)
    ensures Enabled(s, Yield) && PaintInv(Do(s, Yield), goal)
  {
    var s' := Do(s, Yield);
    ReachableInv(n, s);
    NothingRunYet(s);
    forall t: nat ensures CallPainted(s', goal, t) {
      IdleMeansEmpty(s, t);
    }
  }

  lemma PixelPainted(s: State, goal: seq<real>, p: nat)
    requires PaintInv(s, goal) && p < |goal| && s.length <= |s.slots| && Covered(s, p)
    requires forall i: nat :: i < s.length ==> s.runs[i] == 1
    ensures s.image[p] == goal[p]
  {
    var i: nat :| i < s.length && Reaches(s.context.value(s.slots[i]), p);
    assert TaskPainted(s, goal, i);
  }

  /** Confluence: whichever threads run the tiles, in whatever order and however their
      stores interleave, a round leaves exactly the goal image behind, as long as all
      stores agree with it and every pixel is covered. */
  lemma RoundPaints(n: nat, s: State, goal: seq<real>, evs: seq<Event>)
    requires Reachable(n, s) && s.counter == 0 && Round(s, evs)
    requires AgreesWith(s, goal) && Covers(s, goal)
    ensures Run(s, [Yield] + evs).image == goal
  {
    var s' := Run(s, [Yield] + evs);
    RoundStarts(n, s, evs);
    PaintStarts(n, s, goal);
    PaintRun(s, Do(s, Yield), goal, evs);
    DuringRun(s, Do(s, Yield), evs);
    ExactlyOnce(n, s, evs);
    forall p: nat | p < |goal| ensures s'.image[p] == goal[p] {
      assert Covered(s, p);
      PixelPainted(s', goal, p);
    }
  }

  /** No queued tile, nor the slot behind them, writes pixel `p`. */
  ghost predicate Unreached(s: State, p: nat) {
    && s.context.Some?
    && forall i: nat :: i <= s.length && i < |s.slots| ==> !Reaches(s.context.value(s.slots[i]), p)
  }

  lemma StoreElsewhere(s: State, p: nat, i: nat, done: nat)
    requires Unreached(s, p) && i <= s.length && done < |StoresOf(s, s.context, i)|
    ensures var image := ApplyStore(s.image, StoresOf(s, s.context, i)[done]);
            p < |s.image| ==> image[p] == s.image[p]
  {
    assert !Reaches(s.context.value(s.slots[i]), p);
  }

  lemma StepElsewhere(s: State, e: Event, p: nat)
    requires Inv(s) && Enabled(s, e) && (e.WorkerStep? || e.HostStep?) && Unreached(s, p)
    ensures |Do(s, e).image| == |s.image| && (p < |s.image| ==> Do(s, e).image[p] == s.image[p])
  {
    match e
    case WorkerStep(t, _) =>
      assert ThreadOk(s, t);
      if s.workers[t].pc.Loop? && s.workers[t].pc.work.Call? {
        var i, done := s.workers[t].pc.work.task, s.workers[t].pc.work.done;
        LocalContext(s, t);
        if done < |StoresOf(s, s.context, i)| {
          StoreElsewhere(s, p, i, done);
        }
      }
    case HostStep(_) =>
      assert ThreadOk(s, |s.workers|);
      if s.host.HostLoop? && s.host.work.Call? {
        var i, done := s.host.work.task, s.host.work.done;
        if done < |StoresOf(s, s.context, i)| {
          StoreElsewhere(s, p, i, done);
        }
      }
  }

  lemma {:induction false} RunElsewhere(s0: State, s: State, evs: seq<Event>, p: nat)
    requires During(s0, s) && Unreached(s, p) && Legal(s, evs) && Internal(evs)
    ensures |Run(s, evs).image| == |s.image| && (p < |s.image| ==> Run(s, evs).image[p] == s.image[p])
    decreases |evs|
  {
    if evs != [] {
      StepElsewhere(s, evs[0], p);
      DuringStep(s0, s, evs[0]);
      assert Internal(evs[1..]);
      RunElsewhere(s0, Do(s, evs[0]), evs[1..], p);
    }
  }

  /** A round leaves every pixel alone that its tiles do not reach. */
  lemma RoundLeaves(n: nat, s: State, evs: seq<Event>, p: nat)
    requires Reachable(n, s) && Round(s, evs) && Unreached(s, p)
    ensures var s' := Run(s, [Yield] + evs);
            |s'.image| == |s.image| && (p < |s.image| ==> s'.image[p] == s.image[p])
  {
    RoundStarts(n, s, evs);
    RunElsewhere(s, Do(s, Yield), evs, p);
  }
}
