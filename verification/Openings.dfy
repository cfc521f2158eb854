/** How a round opens: runs that really occur, up to the host's sends. */
module Openings {
  import opened Geometry
  import opened Protocol
  import opened Invariant
  import opened Theorems
  import opened Progress
  import opened Sequences
  import opened Wrappers

  lemma StrongReachableDo(n: nat, s: State, e: Event, s': State)
    requires StrongReachable(n, s) && Enabled(s, e) && Strong([e]) && Do(s, e) == s'
    ensures StrongReachable(n, s')
  {
    var pre :| Legal(Init(n), pre) && Strong(pre) && Run(Init(n), pre) == s;
    RunFirst(s, e, []);
    assert [e] + [] == [e];
    RunAppend(Init(n), pre, [e]);
    assert Strong(pre + [e]);
  }

  lemma StrongIsReachable(n: nat, s: State)
    requires StrongReachable(n, s)
    ensures Reachable(n, s)
  {
  }

  // ---------------------------------------------------------------- set-up

  /** What a round works on: user function, queue and pixel buffer. */
  datatype Setup = Setup(painter: Painter, slots: seq<Tile>, length: nat, image: seq<real>)

  ghost predicate Fits(u: Setup) { u.length <= |u.slots| }

  ghost predicate HasSetup(s: State, u: Setup) {
    s.context == Some(u.painter) && s.slots == u.slots && s.length == u.length && |s.image| == |u.image|
  }

  function Fresh(pc: Pc, signal: Signal, status: Status, shared: Option<Painter>): Worker {
    Worker(pc, signal, status, shared, None)
  }

  /** The first `k` of `n` workers are like `a`, the others like `b`. */
  function Mixed(n: nat, k: nat, a: Worker, b: Worker): (ws: seq<Worker>)
    ensures |ws| == n && forall j :: 0 <= j < n ==> ws[j] == if j < k then a else b
  {
    seq(n, j => if j < k then a else b)
  }

  function AtPoll(shared: Option<Painter>): Worker {
    Fresh(Poll, NoSignal, Waiting, shared)
  }

  lemma {:induction false} WorkersCanPoll(n: nat, k: nat)
    requires k <= n
    ensures StrongReachable(n, Init(n).(workers :=
              Mixed(n, k, AtPoll(None), Fresh(SetWaiting, NoSignal, Created, None))))
  {
    var b := Fresh(SetWaiting, NoSignal, Created, None);
    var s' := Init(n).(workers := Mixed(n, k, AtPoll(None), b));
    if k == 0 {
      assert s'.workers == Init(n).workers;
      assert Run(Init(n), []) == s' && Strong([]);
    } else {
      WorkersCanPoll(n, k - 1);
      var s := Init(n).(workers := Mixed(n, k - 1, AtPoll(None), b));
      assert Do(s, WorkerStep(k - 1, false)).workers == s'.workers;
      StrongReachableDo(n, s, WorkerStep(k - 1, false), s');
    }
  }

  /** rsched_create returns: the host has found the first `i` workers waiting. */
  lemma {:induction false} HostCanCreate(n: nat, i: nat)
    requires i <= n
    ensures StrongReachable(n, Init(n).(workers := Mixed(n, n, AtPoll(None), AtPoll(None)),
                                        host := AfterWait(i, n)))
  {
    var ws := Mixed(n, n, AtPoll(None), AtPoll(None));
    if i == 0 {
      WorkersCanPoll(n, n);
      assert ws == Mixed(n, n, AtPoll(None), Fresh(SetWaiting, NoSignal, Created, None));
    } else {
      HostCanCreate(n, i - 1);
      var s := Init(n).(workers := ws, host := WaitSignal(i - 1));
      StrongReachableDo(n, s, HostStep(false), s.(host := WaitStatus(i - 1)));
      StrongReachableDo(n, s.(host := WaitStatus(i - 1)), HostStep(false), s.(host := AfterWait(i, n)));
    }
  }

  /** rsched_set_user_context has reached the first `i` workers. */
  lemma {:induction false} HostCanSetContext(n: nat, f: Painter, i: nat)
    requires i <= n
    ensures StrongReachable(n, Init(n).(workers := Mixed(n, i, AtPoll(Some(f)), AtPoll(None)),
                                        context := Some(f), host := AfterContext(i, n)))
  {
    var s' := Init(n).(workers := Mixed(n, i, AtPoll(Some(f)), AtPoll(None)),
                       context := Some(f), host := AfterContext(i, n));
    if i == 0 {
      HostCanCreate(n, n);
      var s := Init(n).(workers := Mixed(n, n, AtPoll(None), AtPoll(None)), host := AfterWait(n, n));
      assert s'.workers == s.workers;
      StrongReachableDo(n, s, SetUserContext(Some(f)), s');
    } else {
      HostCanSetContext(n, f, i - 1);
      var s := Init(n).(workers := Mixed(n, i - 1, AtPoll(Some(f)), AtPoll(None)),
                        context := Some(f), host := SetContext(i - 1));
      assert Do(s, HostStep(false)).workers == s'.workers;
      StrongReachableDo(n, s, HostStep(false), s');
    }
  }

  /** Ready to yield: workers spinning, everything set. */
  function Ready(n: nat, u: Setup): State {
    Init(n).(workers := Mixed(n, n, AtPoll(Some(u.painter)), AtPoll(None)), context := Some(u.painter),
             host := Idle(true), slots := u.slots, length := u.length, image := u.image)
  }

  lemma CanBeReady(n: nat, u: Setup)
    requires Fits(u)
    ensures StrongReachable(n, Ready(n, u))
  {
    HostCanSetContext(n, u.painter, n);
    var s := Init(n).(workers := Mixed(n, n, AtPoll(Some(u.painter)), AtPoll(None)),
                      context := Some(u.painter), host := AfterContext(n, n));
    var mid := s.(slots := u.slots, length := u.length);
    StrongReachableDo(n, s, CreateTasks(u.slots, u.length), mid);
    StrongReachableDo(n, mid, SetBuffer(u.image), Ready(n, u));
  }

  /** The first `i` workers have been sent START. */
  function Sent(n: nat, u: Setup, i: nat): State {
    Ready(n, u).(workers := Mixed(n, i, Pending(u.painter), AtPoll(Some(u.painter))), host := AfterSend(i, n))
  }

  function Pending(f: Painter): Worker {
    Fresh(Poll, Start, Waiting, Some(f))
  }

  lemma {:induction false} HostCanSend(n: nat, u: Setup, i: nat)
    requires i <= n && Fits(u)
    ensures StrongReachable(n, Sent(n, u, i))
  {
    var s' := Sent(n, u, i);
    if i == 0 {
      CanBeReady(n, u);
      assert s'.workers == Ready(n, u).workers;
      StrongReachableDo(n, Ready(n, u), Yield, s');
    } else {
      HostCanSend(n, u, i - 1);
      assert Do(Sent(n, u, i - 1), HostStep(false)).workers == s'.workers;
      StrongReachableDo(n, Sent(n, u, i - 1), HostStep(false), s');
    }
  }

  // ------------------------------------------------------------- lost START

  /** The START a host has sent can vanish: with one worker or more there is a run in
      which the host is done with worker 0 while that worker is parked with nothing
      pending and has not run. */
  lemma StartCanBeDropped(n: nat, u: Setup) returns (s: State)
    requires n > 0 && Fits(u)
    ensures StrongReachable(n, s) && |s.workers| == n && s.host == AfterSend(1, n)
    ensures Parked(s.workers[0]) && s.claims == []
  {
    CanBeReady(n, u);
    var s0 := Ready(n, u);
    var s1 := Do(s0, WorkerStep(0, false));
    StrongReachableDo(n, s0, WorkerStep(0, false), s1);
    assert s1.workers[0] == Fresh(Release, Locked, Waiting, Some(u.painter));
    var s2 := Do(s1, Yield);
    StrongReachableDo(n, s1, Yield, s2);
    var s3 := Do(s2, HostStep(false));
    StrongReachableDo(n, s2, HostStep(false), s3);
    assert s3.host == Send(0, Locked);
    s := LockReplaced(n, s3);
  }

  lemma LockReplaced(n: nat, s: State) returns (s': State)
    requires StrongReachable(n, s) && |s.workers| == n > 0 && s.host == Send(0, Locked) && s.claims == []
    requires s.workers[0].pc == Release && s.workers[0].signal == Locked && s.workers[0].status == Waiting
    ensures StrongReachable(n, s') && |s'.workers| == n && s'.host == AfterSend(1, n)
    ensures Parked(s'.workers[0]) && s'.claims == []
  {
    var m := Do(s, HostStep(false));
    StrongReachableDo(n, s, HostStep(false), m);
    assert m.workers[0].signal == Start;
    s' := Do(m, WorkerStep(0, false));
    StrongReachableDo(n, m, WorkerStep(0, false), s');
  }

  // ----------------------------------------------------------- endless sends

  /** Every thread takes part in the run. */
  ghost predicate Fair(evs: seq<Event>, n: nat) {
    forall t: nat :: t <= n ==> Count(evs, StepOf(t, n)) > 0
  }

  lemma {:induction false} CountAppend(a: seq<Event>, b: seq<Event>, e: Event)
    ensures Count(a + b, e) == Count(a, e) + Count(b, e)
  {
    FirstAndRest(a, b);
    if a != [] {
      CountAppend(a[1..], b, e);
    }
  }

  /** The workers from `j` on spin once each, which changes nothing. */
  lemma {:induction false} Spins(s: State, j: nat) returns (evs: seq<Event>)
    requires j <= |s.workers|
    requires forall i :: j <= i < |s.workers| ==> s.workers[i].pc == Poll && s.workers[i].signal == NoSignal
    ensures Legal(s, evs) && Strong(evs) && Internal(evs) && Run(s, evs) == s
    ensures forall i :: j <= i < |s.workers| ==> Count(evs, WorkerStep(i, false)) > 0
    decreases |s.workers| - j
  {
    if j == |s.workers| {
      evs := [];
    } else {
      var e := WorkerStep(j, false);
      var mid := Do(s, e);
      assert Do(mid, e).workers == s.workers;
      var rest := Spins(s, j + 1);
      RunFirst(mid, e, rest);
      RunFirst(s, e, [e] + rest);
      evs := [e] + ([e] + rest);
      SpinCounts(e, rest);
    }
  }

  lemma SpinCounts(e: Event, rest: seq<Event>)
    ensures forall x: Event :: Count([e] + ([e] + rest), x) >= Count(rest, x) + if x == e then 1 else 0
  {
    forall x: Event ensures Count([e] + ([e] + rest), x) >= Count(rest, x) + if x == e then 1 else 0 {
      assert ([e] + ([e] + rest))[1..] == [e] + rest && ([e] + rest)[1..] == rest;
    }
  }

  /** The send loop can go on for ever although every thread keeps moving and no CAS fails
      spuriously: a cycle in which the host's CAS always meets the worker's other value. */
  lemma SendCanCycle(n: nat, u: Setup) returns (s: State, evs: seq<Event>)
    requires n > 0 && Fits(u) && u.length > 0
    ensures StrongReachable(n, s) && HasSetup(s, u) && Yielding(s) && s.counter < s.length
    ensures Legal(s, evs) && Strong(evs) && Internal(evs) && Fair(evs, n) && Run(s, evs) == s
  {
    HostCanSend(n, u, 0);
    s := Sent(n, u, 0);
    var cycle := HostCycle(s);
    var spins := Spins(s, 1);
    RunAppend(s, cycle, spins);
    evs := cycle + spins;
    BothAreFair(cycle, spins, n);
  }

  lemma BothAreFair(a: seq<Event>, b: seq<Event>, n: nat)
    requires n > 0 && Count(a, HostStep(false)) > 0 && Count(a, WorkerStep(0, false)) > 0
    requires forall i :: 1 <= i < n ==> Count(b, WorkerStep(i, false)) > 0
    ensures Fair(a + b, n)
  {
    forall t: nat | t <= n ensures Count(a + b, StepOf(t, n)) > 0 {
      CountAppend(a, b, StepOf(t, n));
    }
  }

  lemma HostCycle(s: State) returns (evs: seq<Event>)
    requires s.host == Send(0, NoSignal) && |s.workers| > 0
    requires s.workers[0].pc == Poll && s.workers[0].signal == NoSignal
    ensures Legal(s, evs) && Strong(evs) && Internal(evs) && Run(s, evs) == s
    ensures Count(evs, HostStep(false)) > 0 && Count(evs, WorkerStep(0, false)) > 0
  {
    var w, h := WorkerStep(0, false), HostStep(false);
    var s1 := Do(s, w);
    var s2 := Do(s1, h);
    assert s2.host == Send(0, Locked);
    var s3 := Do(s2, w);
    assert s3.workers == s.workers;
    assert Do(s3, h) == s;
    RunFirst(s3, h, []);
    RunFirst(s2, w, [h] + []);
    RunFirst(s1, h, [w] + ([h] + []));
    RunFirst(s, w, [h] + ([w] + ([h] + [])));
    evs := [w] + ([h] + ([w] + ([h] + [])));
    assert evs[0] == w && evs[1..][0] == h;
  }
}
