/** Progress of the scheduler: which threads are sure to take the next task in the end,
    however the others move, and the one phase in which nobody is. */
module Progress {
  import opened Geometry
  import opened Protocol
  import opened Invariant
  import opened Theorems
  import opened Wrappers

  /** No CAS of the run fails spuriously. */
  ghost predicate Strong(evs: seq<Event>) {
    forall k :: 0 <= k < |evs| ==> evs[k] != HostStep(true) && !(evs[k].WorkerStep? && evs[k].spurious)
  }

  /** The strong CAS steps of one thread; the host is thread `n`. */
  function StepOf(t: nat, n: nat): Event {
    if t < n then WorkerStep(t, false) else HostStep(false)
  }

  // -------------------------------------------------- who can always advance

  /** The thread with the latest successful pop since the reset, or the host. */
  ghost function LastPopper(s: State): nat {
    if s.claims == [] then |s.workers| else s.claims[|s.claims| - 1]
  }

  /** While tasks are left, the last popper is inside the task loop and its expected
      value is current. */
  ghost predicate LeaderInv(s: State) {
    var t := LastPopper(s);
    && (WorkOf(s, t).Some? && WorkOf(s, t).value.Cas? ==> WorkOf(s, t).value.expected == s.counter)
    && (s.claims != [] && s.counter < s.length ==>
          && (t < |s.workers| ==> InRound(s.workers[t]) && s.workers[t].pc != Quiet)
          && (t >= |s.workers| ==> s.host.HostLoop?))
  }

  /** A worker other than the last popper moves without claiming. */
  lemma LeaderInvFrame(s: State, s': State, i: nat)
    requires LeaderInv(s) && i < |s.workers| == |s'.workers| && i != LastPopper(s)
    requires s'.claims == s.claims && s'.counter == s.counter && s'.length == s.length
    requires s'.host == s.host
    requires forall j :: 0 <= j < |s.workers| && j != i ==> s'.workers[j] == s.workers[j]
    ensures LeaderInv(s')
  {
    assert WorkOf(s', LastPopper(s)) == WorkOf(s, LastPopper(s));
  }

  lemma LeaderInvClaim(s: State, i: nat)
    requires i < |s.workers| && WorkerDo(s, i, false).claims != s.claims
    ensures LeaderInv(WorkerDo(s, i, false))
  {
    var s' := WorkerDo(s, i, false);
    assert LastPopper(s') == i && WorkOf(s', i) == Some(Call(s.counter, 0));
  }

  lemma LeaderInvWorker(s: State, i: nat)
    requires Inv(s) && LeaderInv(s) && i < |s.workers|
    ensures LeaderInv(WorkerDo(s, i, false))
  {
    WorkerKeepsOk(s, i, false);
    if WorkerDo(s, i, false).claims != s.claims {
      LeaderInvClaim(s, i);
    } else if LastPopper(s) == i {
      LeaderInvOwnStep(s, i);
    } else {
      assert WorkerDo(s, i, false).counter == s.counter;
      LeaderInvFrame(s, WorkerDo(s, i, false), i);
    }
  }

  lemma LeaderInvOwnStep(s: State, i: nat)
    requires Inv(s) && LeaderInv(s) && i < |s.workers| && LastPopper(s) == i
    requires WorkerDo(s, i, false).claims == s.claims
    ensures LeaderInv(WorkerDo(s, i, false))
  {
    assert WorkOf(s, i) == WorkOf(s, LastPopper(s));
    if s.workers[i].pc.Loop? {
      LeaderInvInLoop(s, i);
    } else {
      OutsideLoop(s, i, false);
    }
  }

  lemma LeaderInvInLoop(s: State, i: nat)
    requires Inv(s) && LeaderInv(s) && i < |s.workers| && LastPopper(s) == i && s.workers[i].pc.Loop?
    requires WorkerDo(s, i, false).claims == s.claims
    ensures LeaderInv(WorkerDo(s, i, false))
  {
    InsideLoop(s, i, false);
    assert WorkOf(s, i) == Some(s.workers[i].pc.work);
  }

  lemma LeaderInvHostInLoop(s: State)
    requires Inv(s) && LeaderInv(s) && s.host.HostLoop?
    ensures LeaderInv(HostDo(s, false))
  {
    assert ThreadOk(s, |s.workers|);
  }

  /** Outside the task loop the host claims nothing and moves no worker. */
  lemma HostOutsideLoop(s: State, spurious: bool)
    requires HostInRange(s) && !s.host.HostLoop? && !s.host.Idle?
    ensures var s' := HostDo(s, spurious);
      && s'.claims == s.claims && s'.counter == s.counter && s'.length == s.length
      && |s'.workers| == |s.workers| && (s'.host.HostLoop? ==> s'.host == HostLoop(Load))
      && forall j :: 0 <= j < |s.workers| ==> s'.workers[j].pc == s.workers[j].pc
  {
  }

  lemma LeaderInvSamePlaces(s: State, s': State)
    requires Inv(s) && LeaderInv(s) && !s.host.HostLoop?
    requires s'.claims == s.claims && s'.counter == s.counter && s'.length == s.length
    requires |s'.workers| == |s.workers| && (s'.host.HostLoop? ==> s'.host == HostLoop(Load))
    requires forall j :: 0 <= j < |s.workers| ==> s'.workers[j].pc == s.workers[j].pc
    ensures LeaderInv(s')
  {
    var t := LastPopper(s);
    assert t < |s.workers| ==> WorkOf(s', t) == WorkOf(s, t);
  }

  lemma LeaderInvHost(s: State)
    requires Inv(s) && LeaderInv(s) && !s.host.Idle?
    ensures LeaderInv(HostDo(s, false))
  {
    if s.host.HostLoop? {
      LeaderInvHostInLoop(s);
    } else {
      HostOutsideLoop(s, false);
      LeaderInvSamePlaces(s, HostDo(s, false));
    }
  }

  lemma LeaderInvCall(s: State, e: Event)
    requires Inv(s) && LeaderInv(s) && Enabled(s, e) && s.host.Idle? && !e.WorkerStep? && !e.HostStep?
    ensures LeaderInv(Do(s, e))
  {
    var s' := Do(s, e);
    var t := LastPopper(s);
    IdleMeansEmpty(s, t);
    if t < |s.workers| {
      assert WorkerOk(s.host, s.context, t, s.workers[t]);
    }
    if e.Requeue? || e.CreateTasks? {
      IdleMeansEmpty(s, |s.workers|);
    }
  }

  lemma LeaderInvDo(s: State, e: Event)
    requires Inv(s) && LeaderInv(s) && Enabled(s, e) && Strong([e])
    ensures LeaderInv(Do(s, e))
  {
    assert e == [e][0];
    match e
    case WorkerStep(i, _) => LeaderInvWorker(s, i);
    case HostStep(_) => LeaderInvHost(s);
    case _ => LeaderInvCall(s, e);
  }

  /** Runs without spurious failures keep both invariants. */
  ghost predicate Sound(s: State) {
    Inv(s) && LeaderInv(s)
  }

  lemma {:induction false} SoundRun(s: State, evs: seq<Event>)
    requires Sound(s) && Legal(s, evs) && Strong(evs)
    ensures Sound(Run(s, evs)) && |Run(s, evs).workers| == |s.workers|
    decreases |evs|
  {
    if evs != [] {
      assert Strong([evs[0]]) && Strong(evs[1..]);
      InvDo(s, evs[0]);
      LeaderInvDo(s, evs[0]);
      SoundRun(Do(s, evs[0]), evs[1..]);
    }
  }

  ghost predicate StrongReachable(n: nat, s: State) {
    exists evs :: Legal(Init(n), evs) && Strong(evs) && Run(Init(n), evs) == s
  }

  lemma StrongReachableSound(n: nat, s: State)
    requires StrongReachable(n, s)
    ensures Sound(s) && |s.workers| == n
  {
    var evs :| Legal(Init(n), evs) && Strong(evs) && Run(Init(n), evs) == s;
    InvInit(n);
    SoundRun(Init(n), evs);
  }

  // ------------------------------------------------------- threads that get on

  /** A rsched_host_yield is under way. */
  ghost predicate Yielding(s: State) {
    !s.host.Idle? && !s.host.SetContext?
  }

  /** Thread `t` still gets to the counter on its own steps: it is on its way there, or its
      expected value is current. Parked threads and losers of a CAS are not live. */
  ghost predicate Live(s: State, t: nat) {
    if t < |s.workers| then WorkerLive(s, s.workers[t])
    else t == |s.workers| && HostLive(s)
  }

  ghost predicate WorkerLive(s: State, w: Worker) {
    match w.pc
    case Poll => w.signal == Start
    case Loop(Cas(e)) => e == s.counter
    case Loop(_) => true
    case ReadContext => true
    case SetRunning => true
    case Unlock => true
    case Receive => true
    case Rearm => true
    case _ => false
  }

  ghost predicate HostLive(s: State) {
    match s.host
    case Send(_, _) => true
    case HostLoop(Cas(e)) => e == s.counter
    case HostLoop(_) => true
    case _ => false
  }

  /** Stores a call still has to make. */
  ghost function Left(s: State, f: Option<Painter>, i: nat, done: nat): nat {
    if done < |StoresOf(s, f, i)| then |StoresOf(s, f, i)| - done else 0
  }

  ghost function WorkerStepsToClaim(s: State, w: Worker): nat {
    match w.pc
    case Poll => 6
    case ReadContext => 5
    case SetRunning => 4
    case Unlock => 3
    case Loop(Load) => 2
    case Loop(Cas(_)) => 1
    case Loop(Call(i, done)) => 5 + Left(s, w.local, i, done)
    case Receive => 4
    case Rearm => 3
    case _ => 0
  }

  ghost function HostStepsToClaim(s: State): nat {
    match s.host
    case Send(i, e) =>
      if i < |s.workers| then
        1 + 2 * (|s.workers| - i) + (if s.workers[i].signal == e then 0 else 1)
      else 0
    case HostLoop(Load) => 2
    case HostLoop(Cas(_)) => 1
    case HostLoop(Call(i, done)) => 3 + Left(s, s.context, i, done)
    case _ => 0
  }

  /** An upper bound, for a live thread, on its own steps up to its next claim. */
  ghost function StepsToClaim(s: State, t: nat): nat {
    if t < |s.workers| then WorkerStepsToClaim(s, s.workers[t]) else HostStepsToClaim(s)
  }

  /** `s'` is `s` after `t` claimed the index the counter stood at. */
  ghost predicate Claimed(s: State, t: nat, s': State) {
    s'.counter == s.counter + 1 && s'.claims == s.claims + [t]
  }

  /** Thread `t` comes closer to claiming. */
  ghost predicate Closer(s: State, t: nat, s': State) {
    && s'.counter == s.counter && s'.claims == s.claims
    && Live(s', t) && StepsToClaim(s', t) < StepsToClaim(s, t)
  }

  lemma LiveWorkerOutside(s: State, t: nat)
    requires Inv(s) && t < |s.workers| && Live(s, t) && !s.workers[t].pc.Loop?
    ensures |WorkerDo(s, t, false).workers| == |s.workers| && Closer(s, t, WorkerDo(s, t, false))
  {
    assert WorkerOk(s.host, s.context, t, s.workers[t]);
    OutsideLoop(s, t, false);
  }

  lemma LiveWorkerInside(s: State, t: nat)
    requires Inv(s) && s.counter < s.length && t < |s.workers| && Live(s, t) && s.workers[t].pc.Loop?
    ensures var s' := WorkerDo(s, t, false);
            |s'.workers| == |s.workers| && ((Claimed(s, t, s') && Live(s', t)) || Closer(s, t, s'))
  {
    InsideLoop(s, t, false);
  }

  lemma LiveHost(s: State)
    requires Inv(s) && s.counter < s.length && HostLive(s)
    ensures var s', n := HostDo(s, false), |s.workers|;
            |s'.workers| == n && ((Claimed(s, n, s') && Live(s', n)) || Closer(s, n, s'))
  {
    if s.host.Send? {
      SendStepsCloser(s);
    }
  }

  lemma SendStepsCloser(s: State)
    requires Inv(s) && s.host.Send?
    ensures |HostDo(s, false).workers| == |s.workers| && Closer(s, |s.workers|, HostDo(s, false))
  {
    var i, s' := s.host.target, HostDo(s, false);
    if s.workers[i].signal == s.host.expected {
      assert s'.host == AfterSend(i + 1, |s.workers|);
    } else {
      assert s'.host == Send(i, s.workers[i].signal) && s'.workers == s.workers;
    }
  }

  /** While tasks are left no step ends the yield. */
  lemma StaysYielding(s: State, e: Event)
    requires Inv(s) && s.counter < s.length && Yielding(s) && Enabled(s, e)
    ensures Inv(Do(s, e)) && Yielding(Do(s, e)) && (e.WorkerStep? || e.HostStep?)
    ensures var s' := Do(s, e);
            |s'.workers| == |s.workers| && s'.length == s.length && s'.slots == s.slots && s'.context == s.context
    ensures s.counter <= Do(s, e).counter <= s.counter + 1
  {
    InvDo(s, e);
    match e
    case WorkerStep(i, spurious) => CounterAfterWorker(s, i, spurious);
    case HostStep(_) =>
    case _ =>
  }

  lemma CounterAfterWorker(s: State, i: nat, spurious: bool)
    requires i < |s.workers|
    ensures var s' := WorkerDo(s, i, spurious);
            && s'.host == s.host && s'.length == s.length && s'.slots == s.slots && s'.context == s.context
            && s.counter <= s'.counter <= s.counter + 1
            && (s'.counter == s.counter ==> s'.claims == s.claims)
  {
    if s.workers[i].pc.Loop? {
      InsideLoop(s, i, spurious);
    } else {
      OutsideLoop(s, i, spurious);
    }
  }

  /** A live thread's own step claims or brings it closer. */
  lemma LiveStep(s: State, t: nat)
    requires Inv(s) && s.counter < s.length && Yielding(s) && Live(s, t)
    ensures t <= |s.workers| && StepsToClaim(s, t) > 0
    ensures var e := StepOf(t, |s.workers|);
            && Enabled(s, e) && Inv(Do(s, e)) && Yielding(Do(s, e))
            && Do(s, e).length == s.length && |Do(s, e).workers| == |s.workers|
            && ((Claimed(s, t, Do(s, e)) && Live(Do(s, e), t)) || Closer(s, t, Do(s, e)))
  {
    if t == |s.workers| {
      LiveHost(s);
    } else if s.workers[t].pc.Loop? {
      LiveWorkerInside(s, t);
    } else {
      LiveWorkerOutside(s, t);
    }
    StaysYielding(s, StepOf(t, |s.workers|));
  }

  /** The other threads cannot hold a live thread up, as long as the host is not sending
      to them. */
  lemma OthersKeepWorkerLive(s: State, e: Event, t: nat)
    requires Inv(s) && s.counter < s.length && Yielding(s) && Enabled(s, e)
    requires t < |s.workers| && Live(s, t) && !(e.WorkerStep? && e.id == t)
    ensures var s' := Do(s, e);
            t < |s'.workers| && (s'.counter == s.counter ==> Live(s', t) && StepsToClaim(s', t) == StepsToClaim(s, t))
  {
    StaysYielding(s, e);
    match e
    case WorkerStep(i, spurious) =>
      assert WorkerOk(s.host, s.context, i, s.workers[i]);
      WorkerKeepsOk(s, i, spurious);
      assert Do(s, e).workers[t] == s.workers[t];
    case HostStep(spurious) =>
      assert WorkerOk(s.host, s.context, t, s.workers[t]);
      HostMovesNoWorker(s, spurious, t);
    case _ =>
  }

  lemma HostMovesNoWorker(s: State, spurious: bool, t: nat)
    requires Inv(s) && Yielding(s) && t < |s.workers|
    ensures |HostDo(s, spurious).workers| == |s.workers|
    ensures var w, w' := s.workers[t], HostDo(s, spurious).workers[t];
            w' == w || (w.signal != Start && w' == w.(signal := Start))
  {
  }

  lemma OthersKeepHostLive(s: State, e: Event)
    requires Inv(s) && s.counter < s.length && s.host.HostLoop? && HostLive(s) && Enabled(s, e) && e.WorkerStep?
    ensures var s' := Do(s, e);
            |s'.workers| == |s.workers|
            && (s'.counter == s.counter ==> HostLive(s') && HostStepsToClaim(s') == HostStepsToClaim(s))
  {
    StaysYielding(s, e);
    CounterAfterWorker(s, e.id, e.spurious);
  }

  // ---------------------------------------------------- progress in every run

  ghost function Count(evs: seq<Event>, e: Event): nat {
    if evs == [] then 0 else (if evs[0] == e then 1 else 0) + Count(evs[1..], e)
  }

  /** No CAS of thread `t` fails spuriously; the other threads' may. */
  ghost predicate NoFailureOf(t: nat, n: nat, evs: seq<Event>) {
    forall k :: 0 <= k < |evs| ==>
      (evs[k].HostStep? && t == n ==> !evs[k].spurious) && (evs[k].WorkerStep? && evs[k].id == t ==> !evs[k].spurious)
  }

  /** The thread is not the host in its send loop. */
  ghost predicate PastSending(s: State, t: nat) {
    t == |s.workers| ==> !s.host.Send?
  }

  lemma {:induction false} CounterNeverFalls(s: State, evs: seq<Event>)
    requires Inv(s) && !s.host.SetContext? && Legal(s, evs) && Internal(evs)
    ensures Run(s, evs).counter >= s.counter
    decreases |evs|
  {
    if evs != [] {
      InvDo(s, evs[0]);
      CounterAfter(s, evs[0]);
      assert Internal(evs[1..]);
      CounterNeverFalls(Do(s, evs[0]), evs[1..]);
    }
  }

  lemma CounterAfter(s: State, e: Event)
    requires Inv(s) && !s.host.SetContext? && Enabled(s, e) && (e.WorkerStep? || e.HostStep?)
    ensures Do(s, e).counter >= s.counter && !Do(s, e).host.SetContext?
  {
    if e.WorkerStep? {
      CounterAfterWorker(s, e.id, e.spurious);
    }
  }

  lemma OneMove(s: State, t: nat, e: Event)
    requires Inv(s) && s.counter < s.length && Yielding(s) && Live(s, t) && PastSending(s, t)
    requires Enabled(s, e) && NoFailureOf(t, |s.workers|, [e])
    ensures var s' := Do(s, e);
            || s'.counter > s.counter
            || (s'.counter == s.counter && Live(s', t) && PastSending(s', t)
                && StepsToClaim(s', t) + (if e == StepOf(t, |s.workers|) then 1 else 0) <= StepsToClaim(s, t))
  {
    assert [e][0] == e;
    StaysYielding(s, e);
    if e == StepOf(t, |s.workers|) {
      LiveStep(s, t);
    } else if t < |s.workers| {
      OthersKeepWorkerLive(s, e, t);
    } else {
      OthersKeepHostLive(s, e);
    }
  }

  /** However the threads interleave: once a live thread has made StepsToClaim steps of its
      own, and none of its own CAS failed spuriously, some thread has taken the next task. */
  lemma {:induction false} LiveAdvances(s: State, t: nat, evs: seq<Event>)
    requires Inv(s) && s.counter < s.length && Yielding(s) && Live(s, t) && PastSending(s, t)
    requires Legal(s, evs) && NoFailureOf(t, |s.workers|, evs)
    requires Internal(evs) && Count(evs, StepOf(t, |s.workers|)) >= StepsToClaim(s, t)
    ensures Run(s, evs).counter > s.counter
    decreases |evs|
  {
    LiveStep(s, t);
    if evs != [] {
      var e := evs[0];
      assert NoFailureOf(t, |s.workers|, [e]) by { assert [e][0] == evs[0]; }
      StaysYielding(s, e);
      OneMove(s, t, e);
      assert Internal(evs[1..]) && NoFailureOf(t, |s.workers|, evs[1..]);
      if Do(s, e).counter > s.counter {
        CounterNeverFalls(Do(s, e), evs[1..]);
      } else {
        LiveAdvances(Do(s, e), t, evs[1..]);
      }
    }
  }

  /** The last popper is live while tasks are left. */
  lemma LeaderIsLive(s: State)
    requires Sound(s) && s.counter < s.length && Yielding(s)
    ensures Live(s, LastPopper(s)) && LastPopper(s) <= |s.workers|
    ensures PastSending(s, LastPopper(s)) <==> s.claims != [] || s.host.HostLoop?
  {
    if s.claims != [] {
      assert IndexOk(s, |s.claims| - 1);
    }
  }

  /** Some number of steps of the last popper is enough, in whatever run they happen. */
  ghost predicate AdvancesWithin(s: State, k: nat) {
    forall evs: seq<Event> ::
      Legal(s, evs) && Strong(evs) && Internal(evs) && Count(evs, StepOf(LastPopper(s), |s.workers|)) >= k ==>
        Run(s, evs).counter > s.counter
  }

  /** The host in its send loop and the worker it sends to can keep each other from getting
      on for as long as they like: the worker moves before every CAS of the host. */
  lemma {:induction false} SendCanLoop(s: State, k: nat) returns (evs: seq<Event>)
    requires SignalInv(s) && s.host.Send?
    ensures Legal(s, evs) && Strong(evs) && Internal(evs) && Count(evs, HostStep(false)) == k
    ensures Run(s, evs).counter == s.counter
    decreases k, 1
  {
    if k == 0 {
      evs := [];
    } else {
      var i := s.host.target;
      assert WorkerOk(s.host, s.context, i, s.workers[i]);
      if s.workers[i].signal == s.host.expected {
        var w := WorkerStep(i, false);
        SignalInvWorker(s, i, false);
        var rest := SendFails(Do(s, w), k);
        evs := [w] + rest;
        RunFirst(s, w, rest);
      } else {
        evs := SendFails(s, k);
      }
    }
  }

  lemma {:induction false} SendFails(s: State, k: nat) returns (evs: seq<Event>)
    requires SignalInv(s) && s.host.Send? && s.workers[s.host.target].signal != s.host.expected && k > 0
    ensures Legal(s, evs) && Strong(evs) && Internal(evs) && Count(evs, HostStep(false)) == k
    ensures Run(s, evs).counter == s.counter
    decreases k, 0
  {
    var h := HostStep(false);
    SignalInvHost(s, false);
    var rest := SendCanLoop(Do(s, h), k - 1);
    evs := [h] + rest;
    RunFirst(s, h, rest);
  }

  /** Progress of the popping, exactly: as long as tasks are left, every run without spurious
      failures in which the last popper makes enough steps takes one, unless nothing has
      been claimed and the host is still sending. */
  lemma AdvancesIff(s: State)
    requires Sound(s) && s.counter < s.length && Yielding(s)
    ensures (exists k: nat :: AdvancesWithin(s, k)) <==> s.claims != [] || s.host.HostLoop?
  {
    LeaderIsLive(s);
    var t, n := LastPopper(s), |s.workers|;
    if s.claims != [] || s.host.HostLoop? {
      forall evs: seq<Event> |
        Legal(s, evs) && Strong(evs) && Internal(evs) && Count(evs, StepOf(t, n)) >= StepsToClaim(s, t)
        ensures Run(s, evs).counter > s.counter
      {
        assert NoFailureOf(t, n, evs);
        LiveAdvances(s, t, evs);
      }
      assert AdvancesWithin(s, StepsToClaim(s, t));
    } else {
      forall k: nat ensures !AdvancesWithin(s, k) {
        var evs := SendCanLoop(s, k);
      }
    }
  }

  // -------------------------------------------------- a thread on its own

  /** `evs` are strong steps of thread `t` alone, where the host is thread `n`. */
  ghost predicate Solo(evs: seq<Event>, t: nat, n: nat) {
    forall k :: 0 <= k < |evs| ==> evs[k] == StepOf(t, n)
  }

  /** A live thread that runs alone claims the next task within StepsToClaim steps, whatever
      the other threads hold, and stays live. */
  lemma {:induction false} LiveCanClaim(s: State, t: nat) returns (evs: seq<Event>)
    requires Inv(s) && s.counter < s.length && Yielding(s) && Live(s, t)
    ensures t <= |s.workers| && Solo(evs, t, |s.workers|) && |evs| <= StepsToClaim(s, t)
    ensures Legal(s, evs) && Claimed(s, t, Run(s, evs)) && Live(Run(s, evs), t)
    ensures var s' := Run(s, evs);
            Inv(s') && Yielding(s') && s'.length == s.length && |s'.workers| == |s.workers|
    decreases StepsToClaim(s, t)
  {
    var e := StepOf(t, |s.workers|);
    LiveStep(s, t);
    var s' := Do(s, e);
    if Claimed(s, t, s') {
      evs := [e];
      RunFirst(s, e, []);
    } else {
      var rest := LiveCanClaim(s', t);
      evs := [e] + rest;
      RunFirst(s, e, rest);
    }
  }

  /** In particular the last popper (the host if there is none) can always be let run on
      its own to the next claim. */
  lemma LeaderCanClaim(s: State) returns (evs: seq<Event>)
    requires Sound(s) && s.counter < s.length && Yielding(s)
    ensures LastPopper(s) <= |s.workers| && Solo(evs, LastPopper(s), |s.workers|)
    ensures |evs| <= StepsToClaim(s, LastPopper(s))
    ensures Legal(s, evs) && Claimed(s, LastPopper(s), Run(s, evs))
    ensures Sound(Run(s, evs)) && Yielding(Run(s, evs)) && Run(s, evs).length == s.length
    ensures |Run(s, evs).workers| == |s.workers|
  {
    LeaderIsLive(s);
    evs := LiveCanClaim(s, LastPopper(s));
    SoloIsStrong(evs, LastPopper(s), |s.workers|);
    SoundRun(s, evs);
  }

  lemma SoloIsStrong(evs: seq<Event>, t: nat, n: nat)
    requires Solo(evs, t, n)
    ensures Strong(evs) && Internal(evs)
  {
  }

  /** What a single thread may see meanwhile: one that lost a CAS keeps expecting one more
      than the counter holds, and its retries change nothing. */
  lemma LoserSpins(s: State, t: nat)
    requires t < |s.workers| && s.workers[t].pc == Loop(Cas(s.counter + 1)) && s.counter < s.length
    ensures WorkerDo(s, t, false) == s
  {
    assert s.workers[t := s.workers[t]] == s.workers;
  }
}
