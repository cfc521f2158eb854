/** Exactly when a pop claims the index behind the queue, and when that is an index behind
    the slots. */
module PastEnd {
  import opened Geometry
  import opened Protocol
  import opened Invariant
  import opened Theorems
  import opened Progress
  import opened Openings
  import opened Wrappers

  /** In some run of `n` workers a thread works on index `length` of a queue of `length`
      tasks. */
  ghost predicate CanPassEnd(n: nat, u: Setup) {
    exists s, t: nat :: Reachable(n, s) && HasSetup(s, u) && Holds(s, t, u.length)
  }

  ghost predicate CanPassEndStrongly(n: nat, u: Setup) {
    exists s, t: nat :: StrongReachable(n, s) && HasSetup(s, u) && Holds(s, t, u.length)
  }

  // ------------------------------------------------------- runs that get there

  /** The same round, with the workers where they were. */
  ghost predicate SameSetting(s: State, s': State) {
    && s'.workers == s.workers && s'.length == s.length && s'.context == s.context && s'.slots == s.slots
    && |s'.image| == |s.image|
  }

  lemma {:induction false} HostFinishes(n: nat, s: State) returns (s': State)
    requires StrongReachable(n, s) && s.host.HostLoop? && s.host.work.Call?
    ensures StrongReachable(n, s') && s'.host == HostLoop(Load) && s'.counter == s.counter && SameSetting(s, s')
    decreases Left(s, s.context, s.host.work.task, s.host.work.done)
  {
    var mid := Do(s, HostStep(false));
    StrongReachableDo(n, s, HostStep(false), mid);
    if mid.host == HostLoop(Load) {
      s' := mid;
    } else {
      s' := HostFinishes(n, mid);
    }
  }

  lemma HostPopsOne(n: nat, s: State) returns (s': State)
    requires StrongReachable(n, s) && s.host == HostLoop(Load) && s.counter < s.length
    ensures StrongReachable(n, s') && s'.host == HostLoop(Load) && s'.counter == s.counter + 1
    ensures SameSetting(s, s')
  {
    var s1 := Do(s, HostStep(false));
    StrongReachableDo(n, s, HostStep(false), s1);
    var s2 := Do(s1, HostStep(false));
    StrongReachableDo(n, s1, HostStep(false), s2);
    assert s2.host == HostLoop(Call(s.counter, 0));
    s' := HostFinishes(n, s2);
  }

  lemma {:induction false} HostPops(n: nat, s: State, m: nat) returns (s': State)
    requires StrongReachable(n, s) && s.host == HostLoop(Load) && s.counter <= m <= s.length
    ensures StrongReachable(n, s') && s'.host == HostLoop(Load) && s'.counter == m
    ensures SameSetting(s, s')
    decreases m - s.counter
  {
    if s.counter == m {
      s' := s;
    } else {
      var mid := HostPopsOne(n, s);
      s' := HostPops(n, mid, m);
    }
  }

  /** Worker 0 has loaded the counter at zero and is about to CAS; the host is about to
      pop its first task. */
  lemma WorkerCanLoad(n: nat, u: Setup) returns (s: State)
    requires n > 0 && u.length > 0 && Fits(u)
    ensures StrongReachable(n, s) && |s.workers| == n && HasSetup(s, u) && s.counter == 0
    ensures s.host == HostLoop(Load) && s.workers[0].pc == Loop(Cas(0))
  {
    HostCanSend(n, u, n);
    s := Sent(n, u, n);
    s := WorkerSteps(n, s, ReadContext);
    s := WorkerSteps(n, s, SetRunning);
    s := WorkerSteps(n, s, Unlock);
    s := WorkerSteps(n, s, Loop(Load));
    s := WorkerSteps(n, s, Loop(Cas(0)));
  }

  /** One step of worker 0 that moves nothing but that worker, to `pc`. */
  lemma WorkerSteps(n: nat, s: State, pc: Pc) returns (s': State)
    requires StrongReachable(n, s) && |s.workers| == n > 0 && s.workers[0].pc != Gone
    requires var w := WorkerDo(s, 0, false).workers[0];
             w.pc == pc && WorkerDo(s, 0, false) == Put(s, 0, w)
    ensures s' == Put(s, 0, WorkerDo(s, 0, false).workers[0]) && StrongReachable(n, s')
  {
    s' := Do(s, WorkerStep(0, false));
    StrongReachableDo(n, s, WorkerStep(0, false), s');
  }

  lemma TwoTasksSuffice(n: nat, u: Setup)
    requires n > 0 && u.length >= 2 && Fits(u)
    ensures CanPassEndStrongly(n, u)
  {
    var s0 := WorkerCanLoad(n, u);
    var s1 := HostPops(n, s0, u.length - 1);
    var s2 := Do(s1, WorkerStep(0, false));
    StrongReachableDo(n, s1, WorkerStep(0, false), s2);
    assert s2.workers[0].pc == Loop(Cas(u.length));
    var s3 := HostPops(n, s2, u.length);
    var s4 := Do(s3, WorkerStep(0, false));
    StrongReachableDo(n, s3, WorkerStep(0, false), s4);
    assert Holds(s4, 0, u.length);
  }

  lemma OneTaskSufficesWeakly(n: nat, u: Setup)
    requires n > 0 && u.length == 1 && Fits(u)
    ensures CanPassEnd(n, u)
  {
    var s0 := WorkerCanLoad(n, u);
    StrongIsReachable(n, s0);
    var s1 := Do(s0, WorkerStep(0, true));
    ReachableDo(n, s0, WorkerStep(0, true));
    var s2 := Do(s1, HostStep(false));
    ReachableDo(n, s1, HostStep(false));
    var s3 := Do(s2, HostStep(false));
    ReachableDo(n, s2, HostStep(false));
    assert s3.workers[0].pc == Loop(Cas(1)) && s3.counter == 1;
    var s4 := Do(s3, WorkerStep(0, false));
    ReachableDo(n, s3, WorkerStep(0, false));
    assert Holds(s4, 0, u.length);
  }

  // -------------------------------------------------- runs that cannot get there

  /** A queue that contention cannot overrun: a host alone, or too few tasks for a failed
      CAS to be retried at the end. */
  ghost predicate Confined(s: State, strong: bool) {
    && s.counter <= s.length
    && (|s.workers| == 0 ==>
          forall t: nat :: InCas(s, t) ==>
            var e := WorkOf(s, t).value.expected; e == s.counter + 1 || (e == s.counter && e < s.length))
    && (|s.workers| > 0 && s.length > 0 ==> strong && forall t: nat :: InCas(s, t) ==> WorkOf(s, t).value.expected == 0)
    && (|s.workers| > 0 && s.length == 0 ==> forall t: nat :: !InCas(s, t))
  }

  ghost predicate Small(s: State, strong: bool) {
    |s.workers| == 0 || s.length == 0 || (strong && s.length == 1)
  }

  lemma ConfinedInLoop(s: State, i: nat, spurious: bool, strong: bool)
    requires Inv(s) && i < |s.workers| && Small(s, strong) && Confined(s, strong) && (strong ==> !spurious)
    requires s.workers[i].pc.Loop?
    ensures Confined(WorkerDo(s, i, spurious), strong)
  {
    var s' := WorkerDo(s, i, spurious);
    assert WorkOf(s, i).Some? && WorkOf(s, i).value.Cas? ==> InCas(s, i);
    forall t: nat | InCas(s', t) && t != i ensures InCas(s, t) && WorkOf(s', t) == WorkOf(s, t) {
      assert WorkOf(s', t) == WorkOf(s, t);
    }
    if InCas(s', i) && s.length > 0 {
      assert WorkOf(s', i).value.expected == 0;
    }
  }

  /** A step outside the task loop leads to no CAS. */
  lemma ConfinedPut(s: State, i: nat, w: Worker, strong: bool)
    requires i < |s.workers| && Confined(s, strong) && (w.pc.Loop? ==> w.pc == Loop(Load))
    ensures Confined(Put(s, i, w), strong)
  {
    var s' := Put(s, i, w);
    forall t: nat | InCas(s', t) ensures InCas(s, t) && WorkOf(s', t) == WorkOf(s, t) {
      assert t != i;
    }
  }

  lemma ConfinedWorker(s: State, i: nat, spurious: bool, strong: bool)
    requires Inv(s) && i < |s.workers| && Small(s, strong) && Confined(s, strong) && (strong ==> !spurious)
    ensures Confined(WorkerDo(s, i, spurious), strong)
  {
    if s.workers[i].pc.Loop? {
      ConfinedInLoop(s, i, spurious, strong);
    } else {
      OutsideLoop(s, i, spurious);
      ConfinedPut(s, i, WorkerDo(s, i, spurious).workers[i], strong);
    }
  }

  lemma ConfinedHostInLoop(s: State, spurious: bool, strong: bool)
    requires Inv(s) && s.host.HostLoop? && Small(s, strong) && Confined(s, strong) && (strong ==> !spurious)
    ensures Confined(HostDo(s, spurious), strong)
  {
    var s', n := HostDo(s, spurious), |s.workers|;
    if s.host.work.Cas? {
      assert InCas(s, n);
    }
    forall t: nat | InCas(s', t) && t != n ensures InCas(s, t) && WorkOf(s', t) == WorkOf(s, t) {
      assert WorkOf(s', t) == WorkOf(s, t);
    }
  }

  lemma ConfinedHost(s: State, spurious: bool, strong: bool)
    requires Inv(s) && !s.host.Idle? && Small(s, strong) && Confined(s, strong) && (strong ==> !spurious)
    ensures Confined(HostDo(s, spurious), strong)
  {
    if s.host.HostLoop? {
      ConfinedHostInLoop(s, spurious, strong);
    } else {
      var s' := HostDo(s, spurious);
      forall t: nat | InCas(s', t) ensures InCas(s, t) && WorkOf(s', t) == WorkOf(s, t) {
      }
    }
  }

  lemma ConfinedCall(s: State, e: Event, strong: bool)
    requires Inv(s) && Enabled(s, e) && s.host.Idle? && !e.WorkerStep? && !e.HostStep?
    requires Small(s, strong) ==> Confined(s, strong)
    requires Small(Do(s, e), strong)
    ensures Confined(Do(s, e), strong)
  {
    forall t: nat ensures !InCas(Do(s, e), t) {
      IdleMeansEmpty(s, t);
    }
  }

  lemma {:induction false} ConfinedRun(s: State, evs: seq<Event>, strong: bool)
    requires Inv(s) && Legal(s, evs) && (strong ==> Strong(evs))
    requires Small(s, strong) ==> Confined(s, strong)
    ensures Small(Run(s, evs), strong) ==> Confined(Run(s, evs), strong)
    decreases |evs|
  {
    if evs != [] {
      var e := evs[0];
      InvDo(s, e);
      if Small(Do(s, e), strong) {
        match e
        case WorkerStep(i, spurious) =>
          WorkerKeepsOk(s, i, spurious);
          ConfinedWorker(s, i, spurious, strong);
        case HostStep(spurious) =>
          ConfinedHost(s, spurious, strong);
        case _ => ConfinedCall(s, e, strong);
      }
      ConfinedRun(Do(s, e), evs[1..], strong);
    }
  }

  lemma ConfinedInit(n: nat, strong: bool)
    ensures Inv(Init(n)) && Confined(Init(n), strong)
  {
    InvInit(n);
  }

  lemma HeldIsBelow(s: State, t: nat, i: nat)
    requires Inv(s) && Holds(s, t, i)
    ensures i < s.counter
  {
    assert ThreadOk(s, t);
  }

  lemma NotConfined(n: nat, s: State)
    requires Reachable(n, s) && s.counter > s.length
    ensures n >= 1 && s.length >= 1
  {
    var evs :| Legal(Init(n), evs) && Run(Init(n), evs) == s;
    ConfinedInit(n, false);
    ConfinedRun(Init(n), evs, false);
    ReachableInv(n, s);
  }

  lemma NotConfinedStrongly(n: nat, s: State)
    requires StrongReachable(n, s) && s.counter > s.length
    ensures n >= 1 && s.length >= 2
  {
    var evs :| Legal(Init(n), evs) && Strong(evs) && Run(Init(n), evs) == s;
    ConfinedInit(n, true);
    ConfinedRun(Init(n), evs, true);
    StrongIsReachable(n, s);
    ReachableInv(n, s);
  }

  // ------------------------------------------------------------------ exactly

  /** With the CAS as compiled for any target, which may fail spuriously, index `length`
      can be claimed exactly when there is a worker and a task, whatever the tasks do. */
  lemma PastEndIff(n: nat, u: Setup)
    requires Fits(u)
    ensures CanPassEnd(n, u) <==> n >= 1 && u.length >= 1
  {
    if CanPassEnd(n, u) {
      var s, t: nat :| Reachable(n, s) && HasSetup(s, u) && Holds(s, t, u.length);
      ReachableInv(n, s);
      HeldIsBelow(s, t, u.length);
      NotConfined(n, s);
    }
    if n >= 1 && u.length == 1 {
      OneTaskSufficesWeakly(n, u);
    } else if n >= 1 && u.length >= 2 {
      TwoTasksSuffice(n, u);
      var s, t: nat :| StrongReachable(n, s) && HasSetup(s, u) && Holds(s, t, u.length);
      StrongIsReachable(n, s);
    }
  }

  /** Without spurious failures it takes a worker and two tasks. */
  lemma PastEndStronglyIff(n: nat, u: Setup)
    requires Fits(u)
    ensures CanPassEndStrongly(n, u) <==> n >= 1 && u.length >= 2
  {
    if CanPassEndStrongly(n, u) {
      var s, t: nat :| StrongReachable(n, s) && HasSetup(s, u) && Holds(s, t, u.length);
      StrongIsReachable(n, s);
      ReachableInv(n, s);
      HeldIsBelow(s, t, u.length);
      NotConfinedStrongly(n, s);
    }
    if n >= 1 && u.length >= 2 {
      TwoTasksSuffice(n, u);
    }
  }

  /** In some run a thread works on an index behind the slots. */
  ghost predicate CanTouchOutside(n: nat, u: Setup) {
    exists s, t: nat, i: nat :: Reachable(n, s) && HasSetup(s, u) && Holds(s, t, i) && i >= |u.slots|
  }

  /** Every index a thread works on has a slot, if there is one to spare or no need for it. */
  lemma StaysInside(n: nat, s: State, t: nat, i: nat)
    requires Reachable(n, s) && Holds(s, t, i)
    requires n >= 1 && s.length >= 1 ==> s.length < |s.slots|
    ensures i < |s.slots|
  {
    ReachableInv(n, s);
    HeldIsBelow(s, t, i);
    if i == s.length {
      NotConfined(n, s);
    }
  }

  /** The scheduler reads behind its array exactly when there is a worker and a task and no
      slot behind the last task. */
  lemma TouchesOutsideIff(n: nat, u: Setup)
    requires Fits(u)
    ensures CanTouchOutside(n, u) <==> n >= 1 && u.length >= 1 && |u.slots| == u.length
  {
    PastEndIff(n, u);
    if CanTouchOutside(n, u) {
      var s, t: nat, i: nat :| Reachable(n, s) && HasSetup(s, u) && Holds(s, t, i) && i >= |u.slots|;
      if n == 0 || u.length == 0 || |u.slots| > u.length {
        StaysInside(n, s, t, i);
      }
    }
    if n >= 1 && u.length >= 1 && |u.slots| == u.length {
      var s, t: nat :| Reachable(n, s) && HasSetup(s, u) && Holds(s, t, u.length);
    }
  }
}
