/** The inductive invariant of the scheduler: it ties every worker's control point to
    its signal and status cells and to the host's phase, and every claimed index to
    the one thread that claimed it. */
module Invariant {
  import opened Geometry
  import opened Protocol
  import opened Wrappers

  // ------------------------------------------------ signals and host phase

  /** Spinning in rsched_worker_yield with nothing pending. */
  ghost predicate Parked(w: Worker) {
    && w.status == Waiting
    && ((w.pc == Poll && w.signal == NoSignal) || (w.pc == Release && w.signal == Locked))
  }

  /** The control points between clearing START and going back to waiting. */
  ghost predicate InRound(w: Worker) {
    w.pc.Loop? || w.pc == Receive || w.pc == Rearm || w.pc == Quiet
  }

  /** The control points at which the worker holds its private copy of the context. */
  ghost predicate HoldsContext(w: Worker) {
    InRound(w) || w.pc == SetRunning || w.pc == Unlock
  }

  /** START is pending or being carried out. */
  ghost predicate Engaged(w: Worker) {
    w.signal == Start || w.pc == ReadContext || HoldsContext(w)
  }

  /** No START can still be on its way into the task loop. */
  ghost predicate Settled(w: Worker) {
    Parked(w) || InRound(w) || w.pc == SetWaiting
  }

  /** What each control point fixes about the worker's two cells. */
  ghost predicate CellsFit(w: Worker) {
    match w.pc
    case SetWaiting => w.signal == NoSignal && w.status in {Created, Running}
    case Poll => w.signal != Locked && w.status == Waiting
    case Release => w.signal != NoSignal && w.status == Waiting
    case ReadContext => w.signal == Locked && w.status == Waiting
    case SetRunning => w.signal == Locked && w.status == Waiting
    case Unlock => w.signal == Locked && w.status == Running
    case Loop(_) => w.signal == NoSignal && w.status == Running
    case Receive => w.signal == NoSignal && w.status == Running
    case Rearm => w.signal == Locked && w.status == Running
    case Quiet => w.signal == NoSignal && w.status == Running
    case _ => false
  }

  /** The workers the host's phase pins down. */
  ghost predicate MustPark(host: HostPc, j: nat) {
    match host
    case Idle(_) => true
    case SetContext(_) => true
    case Send(i, _) => j >= i
    case HostLoop(_) => false
    case WaitSignal(i) => j < i
    case WaitStatus(i) => j < i
  }

  ghost predicate WorkerOk(host: HostPc, context: Option<Painter>, j: nat, w: Worker) {
    && CellsFit(w)
    && (MustPark(host, j) ==> Parked(w))
    && (host == WaitStatus(j) ==> Settled(w))
    && (Engaged(w) ==> context.Some?)
    && (!(host.SetContext? && j >= host.next) ==> w.shared == context)
    && (HoldsContext(w) ==> w.local == context)
  }

  ghost predicate HostOk(s: State) {
    && HostInRange(s)
    && (s.host.Send? ==> s.host.expected != Start)
    && (s.host.Send? || s.host.HostLoop? ==> s.context.Some?)
    && (s.host.WaitSignal? || s.host.WaitStatus? ==> s.counter >= s.length)
  }

  ghost predicate SignalInv(s: State) {
    HostOk(s) && forall j :: 0 <= j < |s.workers| ==> WorkerOk(s.host, s.context, j, s.workers[j])
  }

  // ------------------------------------------------------- claims and runs

  /** What thread `t` does inside the task loop; the host is thread |workers|. */
  ghost function WorkOf(s: State, t: nat): Option<Work> {
    if t < |s.workers| then
      if s.workers[t].pc.Loop? then Some(s.workers[t].pc.work) else None
    else if t == |s.workers| && s.host.HostLoop? then Some(s.host.work)
    else None
  }

  ghost predicate Holds(s: State, t: nat, i: nat) {
    WorkOf(s, t).Some? && WorkOf(s, t).value.Call? && WorkOf(s, t).value.task == i
  }

  ghost predicate InCas(s: State, t: nat) {
    WorkOf(s, t).Some? && WorkOf(s, t).value.Cas?
  }

  /** Thread `t` agrees with the history. */
  ghost predicate ThreadOk(s: State, t: nat) {
    match WorkOf(s, t)
    case Some(Cas(e)) => e <= s.length && e <= s.counter + 1
    case Some(Call(i, _)) => i < |s.claims| && s.claims[i] == t && s.runs[i] == 0
    case _ => true
  }

  /** Index `i` agrees with the history: unclaimed, claimed and finished once, or held
      by the thread that claimed it. */
  ghost predicate IndexOk(s: State, i: nat) {
    if i < |s.claims| then
      && s.claims[i] <= |s.workers|
      && (s.runs[i] == 1 || (s.runs[i] == 0 && Holds(s, s.claims[i], i)))
    else s.runs[i] == 0
  }

  ghost predicate QueueInv(s: State) {
    && |s.claims| == s.counter <= s.length + 1
    && s.length <= |s.slots|
    && (forall t: nat :: ThreadOk(s, t))
    && (forall i: nat :: IndexOk(s, i))
  }

  ghost predicate Inv(s: State) {
    SignalInv(s) && QueueInv(s)
  }

  // ---------------------------------------------------------- preservation

  lemma InvInit(n: nat)
    ensures Inv(Init(n)) && |Init(n).workers| == n
  {
  }

  /** A step outside the task loop changes nothing but the worker itself. */
  lemma OutsideLoop(s: State, i: nat, spurious: bool)
    requires i < |s.workers| && !s.workers[i].pc.Loop?
    ensures var w := WorkerDo(s, i, spurious).workers;
            && |w| == |s.workers| && WorkerDo(s, i, spurious) == Put(s, i, w[i])
            && (w[i].pc.Loop? ==> w[i].pc == Loop(Load))
  {
  }

  /** A step inside the task loop changes only the worker's control point, and leaves it
      running. */
  lemma InsideLoop(s: State, i: nat, spurious: bool)
    requires i < |s.workers| && s.workers[i].pc.Loop?
    ensures var s' := WorkerDo(s, i, spurious);
            && |s'.workers| == |s.workers|
            && s'.host == s.host && s'.context == s.context
            && s'.length == s.length && s'.slots == s.slots && s'.counter >= s.counter
            && (s'.workers[i].pc.Loop? || s'.workers[i].pc == Receive || s'.workers[i].pc == Quiet)
            && s'.workers == s.workers[i := s.workers[i].(pc := s'.workers[i].pc)]
  {
  }

  lemma YieldKeepsOk(s: State, i: nat, spurious: bool)
    requires i < |s.workers| && WorkerOk(s.host, s.context, i, s.workers[i])
    requires s.workers[i].pc in {SetWaiting, Poll, Release, ReadContext}
    ensures |WorkerDo(s, i, spurious).workers| == |s.workers|
    ensures WorkerOk(s.host, s.context, i, WorkerDo(s, i, spurious).workers[i])
  {
  }

  lemma RoundKeepsOk(s: State, i: nat, spurious: bool)
    requires i < |s.workers| && WorkerOk(s.host, s.context, i, s.workers[i])
    requires s.workers[i].pc in {SetRunning, Unlock, Receive, Rearm, Quiet}
    ensures |WorkerDo(s, i, spurious).workers| == |s.workers|
    ensures WorkerOk(s.host, s.context, i, WorkerDo(s, i, spurious).workers[i])
  {
  }

  /** A worker step keeps that worker's own conditions, whatever the host is doing. */
  lemma WorkerKeepsOk(s: State, i: nat, spurious: bool)
    requires i < |s.workers| && WorkerOk(s.host, s.context, i, s.workers[i])
    ensures var s' := WorkerDo(s, i, spurious);
            && |s'.workers| == |s.workers|
            && s'.host == s.host && s'.context == s.context
            && s'.length == s.length && s'.slots == s.slots && s'.counter >= s.counter
            && WorkerOk(s.host, s.context, i, s'.workers[i])
            && forall j :: 0 <= j < |s.workers| && j != i ==> s'.workers[j] == s.workers[j]
  {
    if s.workers[i].pc.Loop? {
      InsideLoop(s, i, spurious);
    } else {
      OutsideLoop(s, i, spurious);
      if s.workers[i].pc in {SetWaiting, Poll, Release, ReadContext} {
        YieldKeepsOk(s, i, spurious);
      } else {
        RoundKeepsOk(s, i, spurious);
      }
    }
  }

  lemma SignalInvWorker(s: State, i: nat, spurious: bool)
    requires SignalInv(s) && i < |s.workers|
    ensures SignalInv(WorkerDo(s, i, spurious))
  {
    WorkerKeepsOk(s, i, spurious);
  }

  lemma SignalInvSend(s: State, spurious: bool)
    requires SignalInv(s) && s.host.Send?
    ensures SignalInv(HostDo(s, spurious))
  {
    var i, s' := s.host.target, HostDo(s, spurious);
    forall j | 0 <= j < |s'.workers| ensures WorkerOk(s'.host, s'.context, j, s'.workers[j]) {
      assert WorkerOk(s.host, s.context, j, s.workers[j]);
    }
    assert WorkerOk(s.host, s.context, i, s.workers[i]);
  }

  lemma SignalInvContext(s: State, spurious: bool)
    requires SignalInv(s) && s.host.SetContext?
    ensures SignalInv(HostDo(s, spurious))
  {
    var s' := HostDo(s, spurious);
    forall j | 0 <= j < |s'.workers| ensures WorkerOk(s'.host, s'.context, j, s'.workers[j]) {
      assert WorkerOk(s.host, s.context, j, s.workers[j]);
    }
  }

  lemma SignalInvLoop(s: State, spurious: bool)
    requires SignalInv(s) && s.host.HostLoop?
    ensures SignalInv(HostDo(s, spurious))
  {
    var s' := HostDo(s, spurious);
    forall j | 0 <= j < |s'.workers| ensures WorkerOk(s'.host, s'.context, j, s'.workers[j]) {
      assert WorkerOk(s.host, s.context, j, s.workers[j]);
    }
  }

  lemma SignalInvWait(s: State, spurious: bool)
    requires SignalInv(s) && (s.host.WaitSignal? || s.host.WaitStatus?)
    ensures SignalInv(HostDo(s, spurious))
  {
    var s' := HostDo(s, spurious);
    forall j | 0 <= j < |s'.workers| ensures WorkerOk(s'.host, s'.context, j, s'.workers[j]) {
      assert WorkerOk(s.host, s.context, j, s.workers[j]);
    }
  }

  lemma SignalInvHost(s: State, spurious: bool)
    requires SignalInv(s) && !s.host.Idle?
    ensures SignalInv(HostDo(s, spurious))
  {
    if s.host.Send? {
      SignalInvSend(s, spurious);
    } else if s.host.SetContext? {
      SignalInvContext(s, spurious);
    } else if s.host.HostLoop? {
      SignalInvLoop(s, spurious);
    } else {
      SignalInvWait(s, spurious);
    }
  }

  lemma SignalInvCall(s: State, e: Event)
    requires SignalInv(s) && Enabled(s, e) && s.host.Idle? && !e.WorkerStep? && !e.HostStep?
    ensures SignalInv(Do(s, e))
  {
    var s' := Do(s, e);
    forall j | 0 <= j < |s'.workers|
      ensures WorkerOk(s'.host, s'.context, j, s'.workers[j])
    {
      assert WorkerOk(s.host, s.context, j, s.workers[j]);
    }
  }

  /** Nothing about the queue changes when the counter, the history and every thread's
      place in the task loop stay the same. */
  lemma QueueInvFrame(s: State, s': State)
    requires QueueInv(s)
    requires |s'.workers| == |s.workers| && s'.counter == s.counter && s'.claims == s.claims
    requires s'.runs == s.runs && s'.length == s.length && s'.slots == s.slots
    requires forall t: nat {:trigger WorkOf(s', t)} ::
               WorkOf(s', t) == WorkOf(s, t)
               || (WorkOf(s', t) != None && WorkOf(s', t).value == Load && !InCall(s, t))
               || (WorkOf(s', t) == None && !InCall(s, t))
               || SamePlace(s, s', t)
    ensures QueueInv(s')
  {
    forall t: nat ensures ThreadOk(s', t) {
      assert ThreadOk(s, t);
    }
    forall i: nat ensures IndexOk(s', i) {
      assert IndexOk(s, i);
      if i < |s.claims| && s.runs[i] == 0 {
        var t := s.claims[i];
        assert Holds(s, t, i);
      }
    }
  }

  ghost predicate InCall(s: State, t: nat) {
    WorkOf(s, t).Some? && WorkOf(s, t).value.Call?
  }

  /** Thread `t` moved within the same call, or refreshed its expected value in bounds. */
  ghost predicate SamePlace(s: State, s': State, t: nat) {
    && WorkOf(s', t).Some?
    && match WorkOf(s', t).value
       case Call(i, _) => Holds(s, t, i)
       case Cas(e) => !InCall(s, t) && e <= s'.length && e <= s'.counter + 1
       case Load => !InCall(s, t)
  }

  /** Thread `t` claims the index the counter stood at. */
  lemma QueueInvClaim(s: State, s': State, t: nat)
    requires QueueInv(s) && t <= |s.workers| && InCas(s, t) && s.counter <= s.length
    requires |s'.workers| == |s.workers| && s'.counter == s.counter + 1
    requires s'.claims == s.claims + [t]
    requires s'.runs == s.runs && s'.length == s.length && s'.slots == s.slots
    requires WorkOf(s', t) == Some(Call(s.counter, 0))
    requires forall u: nat {:trigger WorkOf(s', u)} :: u != t ==> WorkOf(s', u) == WorkOf(s, u)
    ensures QueueInv(s')
  {
    assert IndexOk(s, s.counter);
    forall u: nat ensures ThreadOk(s', u) {
      assert ThreadOk(s, u);
    }
    forall i: nat ensures IndexOk(s', i) {
      assert IndexOk(s, i);
      if i < |s.claims| && s.runs[i] == 0 {
        assert Holds(s, s.claims[i], i);
      }
    }
  }

  /** Thread `t` finishes the call it holds. */
  lemma QueueInvFinish(s: State, s': State, t: nat, i: nat)
    requires QueueInv(s) && t <= |s.workers| && Holds(s, t, i)
    requires |s'.workers| == |s.workers| && s'.counter == s.counter && s'.claims == s.claims
    requires s'.runs == s.runs + multiset{i} && s'.length == s.length && s'.slots == s.slots
    requires WorkOf(s', t) == None || WorkOf(s', t) == Some(Load)
    requires forall u: nat {:trigger WorkOf(s', u)} :: u != t ==> WorkOf(s', u) == WorkOf(s, u)
    ensures QueueInv(s')
  {
    assert ThreadOk(s, t);
    forall u: nat ensures ThreadOk(s', u) {
      assert ThreadOk(s, u);
    }
    forall k: nat ensures IndexOk(s', k) {
      assert IndexOk(s, k);
      if k < |s.claims| && k != i && s.runs[k] == 0 {
        assert Holds(s, s.claims[k], k);
      }
    }
  }

  /** A worker that is not in a call moves, and not into one. */
  lemma QueueInvPut(s: State, i: nat, w: Worker)
    requires QueueInv(s) && i < |s.workers| && !InCall(s, i) && (w.pc.Loop? ==> w.pc == Loop(Load))
    ensures QueueInv(Put(s, i, w))
  {
    QueueInvFrame(s, Put(s, i, w));
  }

  lemma QueueInvPop(s: State, i: nat, spurious: bool)
    requires QueueInv(s) && i < |s.workers| && s.workers[i].pc.Loop? && !s.workers[i].pc.work.Call?
    ensures QueueInv(WorkerDo(s, i, spurious))
  {
    var s' := WorkerDo(s, i, spurious);
    assert ThreadOk(s, i);
    if s'.claims != s.claims {
      QueueInvClaim(s, s', i);
    } else {
      QueueInvFrame(s, s');
    }
  }

  lemma QueueInvRunning(s: State, i: nat, spurious: bool)
    requires QueueInv(s) && i < |s.workers| && s.workers[i].pc.Loop? && s.workers[i].pc.work.Call?
    ensures QueueInv(WorkerDo(s, i, spurious))
  {
    var s', work := WorkerDo(s, i, spurious), s.workers[i].pc.work;
    if work.done < |StoresOf(s, s.workers[i].local, work.task)| {
      QueueInvFrame(s, s');
    } else {
      QueueInvFinish(s, s', i, work.task);
    }
  }

  lemma QueueInvWorker(s: State, i: nat, spurious: bool)
    requires QueueInv(s) && i < |s.workers|
    ensures QueueInv(WorkerDo(s, i, spurious))
  {
    if s.workers[i].pc.Loop? {
      if s.workers[i].pc.work.Call? {
        QueueInvRunning(s, i, spurious);
      } else {
        QueueInvPop(s, i, spurious);
      }
    } else {
      OutsideLoop(s, i, spurious);
      QueueInvPut(s, i, WorkerDo(s, i, spurious).workers[i]);
    }
  }

  lemma QueueInvHostInLoop(s: State, spurious: bool)
    requires QueueInv(s) && s.host.HostLoop?
    ensures QueueInv(HostDo(s, spurious))
  {
    var s' := HostDo(s, spurious);
    var n := |s.workers|;
    assert ThreadOk(s, n);
    match s.host.work
    case Load => QueueInvFrame(s, s');
    case Cas(e) =>
      if s.counter == e && !spurious {
        QueueInvClaim(s, s', n);
      } else {
        QueueInvFrame(s, s');
      }
    case Call(task, done) =>
      if done < |StoresOf(s, s.context, task)| {
        QueueInvFrame(s, s');
      } else {
        QueueInvFinish(s, s', n, task);
      }
  }

  lemma QueueInvHost(s: State, spurious: bool)
    requires QueueInv(s) && HostInRange(s)
    ensures QueueInv(HostDo(s, spurious))
  {
    if s.host.HostLoop? {
      QueueInvHostInLoop(s, spurious);
    } else {
      QueueInvFrame(s, HostDo(s, spurious));
    }
  }

  /** While the host is between calls no thread is inside the task loop. */
  lemma IdleMeansEmpty(s: State, t: nat)
    requires SignalInv(s) && (s.host.Idle? || s.host.SetContext?)
    ensures WorkOf(s, t) == None
  {
    if t < |s.workers| {
      assert WorkerOk(s.host, s.context, t, s.workers[t]);
    }
  }

  lemma QueueInvCall(s: State, e: Event)
    requires Inv(s) && Enabled(s, e) && s.host.Idle? && !e.WorkerStep? && !e.HostStep?
    ensures QueueInv(Do(s, e))
  {
    var s' := Do(s, e);
    forall t: nat ensures WorkOf(s, t) == None && (WorkOf(s', t) == None || WorkOf(s', t) == Some(Load)) {
      IdleMeansEmpty(s, t);
    }
    if e.Requeue? || e.CreateTasks? {
      assert QueueInv(s');
    } else {
      QueueInvFrame(s, s');
    }
  }

  lemma InvDo(s: State, e: Event)
    requires Inv(s) && Enabled(s, e)
    ensures Inv(Do(s, e)) && |Do(s, e).workers| == |s.workers|
  {
    match e
    case WorkerStep(i, spurious) =>
      WorkerKeepsOk(s, i, spurious);
      SignalInvWorker(s, i, spurious);
      QueueInvWorker(s, i, spurious);
    case HostStep(spurious) =>
      SignalInvHost(s, spurious);
      QueueInvHost(s, spurious);
    case _ =>
      SignalInvCall(s, e);
      QueueInvCall(s, e);
  }

  lemma {:induction false} InvRun(s: State, evs: seq<Event>)
    requires Inv(s) && Legal(s, evs)
    ensures Inv(Run(s, evs)) && |Run(s, evs).workers| == |s.workers|
    decreases |evs|
  {
    if evs != [] {
      InvDo(s, evs[0]);
      InvRun(Do(s, evs[0]), evs[1..]);
    }
  }

  /** The invariant holds in every interleaving with any number of workers. */
  lemma ReachableInv(n: nat, s: State)
    requires Reachable(n, s)
    ensures Inv(s) && |s.workers| == n
  {
    var evs :| Legal(Init(n), evs) && Run(Init(n), evs) == s;
    InvInit(n);
    InvRun(Init(n), evs);
  }
}
