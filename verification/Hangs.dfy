/** What spurious CAS failures can do to a round, exactly. */
module Hangs {
  import opened Geometry
  import opened Protocol
  import opened Invariant
  import opened Theorems
  import opened Progress
  import opened Returning
  import opened Openings
  import opened Wrappers

  /** Every thread has lost a CAS and expects one more than the counter. */
  ghost predicate AllLosers(s: State) {
    && s.host == HostLoop(Cas(s.counter + 1))
    && forall j :: 0 <= j < |s.workers| ==> s.workers[j].pc == Loop(Cas(s.counter + 1))
  }

  /** Then no run changes anything any more. */
  lemma {:induction false} SpuriousFailureHangs(s: State, evs: seq<Event>)
    requires AllLosers(s) && s.counter < s.length && Legal(s, evs)
    ensures Run(s, evs) == s
    decreases |evs|
  {
    if evs != [] {
      if evs[0].WorkerStep? {
        var w := s.workers[evs[0].id];
        assert s.workers[evs[0].id := w] == s.workers;
      }
      SpuriousFailureHangs(s, evs[1..]);
    }
  }

  function Loser(f: Painter): Worker {
    Worker(Loop(Cas(1)), NoSignal, Running, Some(f), Some(f))
  }

  /** The first `j` workers have lost their CAS. */
  function Losing(n: nat, u: Setup, j: nat): State {
    Sent(n, u, n).(workers := Mixed(n, j, Loser(u.painter), Pending(u.painter)))
  }

  /** Worker `j` of `s` moves from `w` to `w'` and changes nothing else. */
  lemma WorkerMoves(n: nat, s: State, j: nat, spurious: bool, w: Worker, w': Worker)
    requires j < |s.workers| && Reachable(n, Put(s, j, w)) && w.pc != Gone
    requires WorkerDo(Put(s, j, w), j, spurious) == Put(Put(s, j, w), j, w')
    ensures Reachable(n, Put(s, j, w'))
  {
    assert s.workers[j := w][j := w'] == s.workers[j := w'];
    ReachableDo(n, Put(s, j, w), WorkerStep(j, spurious));
  }

  /** A worker that has just entered the task loop. */
  function Entered(f: Painter): Worker {
    Worker(Loop(Load), NoSignal, Running, Some(f), Some(f))
  }

  lemma WorkerCanEnter(n: nat, s: State, j: nat, f: Painter)
    requires j < |s.workers| && Reachable(n, s) && s.workers[j] == Pending(f)
    ensures Reachable(n, Put(s, j, Entered(f)))
  {
    var some := Some(f);
    assert s.workers[j := Pending(f)] == s.workers;
    var w1 := Worker(ReadContext, Locked, Waiting, some, None);
    WorkerMoves(n, s, j, false, Pending(f), w1);
    var w2 := w1.(pc := SetRunning, local := some);
    WorkerMoves(n, s, j, false, w1, w2);
    var w3 := w2.(pc := Unlock, status := Running);
    WorkerMoves(n, s, j, false, w2, w3);
    WorkerMoves(n, s, j, false, w3, Entered(f));
  }

  /** A worker with a pending START gets to its CAS, which fails. */
  lemma WorkerCanLose(n: nat, s: State, j: nat, f: Painter)
    requires j < |s.workers| && Reachable(n, s) && s.workers[j] == Pending(f) && s.counter == 0 < s.length
    ensures Reachable(n, Put(s, j, Loser(f)))
  {
    WorkerCanEnter(n, s, j, f);
    var w := Entered(f).(pc := Loop(Cas(0)));
    WorkerMoves(n, s, j, false, Entered(f), w);
    WorkerMoves(n, s, j, true, w, Loser(f));
  }

  lemma {:induction false} WorkersCanLose(n: nat, u: Setup, j: nat)
    requires j <= n && Fits(u) && u.length > 0
    ensures Reachable(n, Losing(n, u, j))
  {
    if j == 0 {
      HostCanSend(n, u, n);
      StrongIsReachable(n, Sent(n, u, n));
      assert Losing(n, u, 0).workers == Sent(n, u, n).workers;
    } else {
      WorkersCanLose(n, u, j - 1);
      WorkerCanLose(n, Losing(n, u, j - 1), j - 1, u.painter);
      assert Losing(n, u, j - 1).workers[j - 1 := Loser(u.painter)] == Losing(n, u, j).workers;
    }
  }

  /** With any number of workers and any tasks there is a run in which each thread's CAS
      fails spuriously once and that nothing ever gets out of. */
  lemma SpuriousHangIsReachable(n: nat, u: Setup) returns (s: State)
    requires Fits(u) && u.length > 0
    ensures Reachable(n, s) && HasSetup(s, u) && Yielding(s) && s.claims == []
    ensures forall evs: seq<Event> :: Legal(s, evs) ==> Run(s, evs) == s
  {
    WorkersCanLose(n, u, n);
    var s0 := Losing(n, u, n);
    var s1 := Do(s0, HostStep(false));
    ReachableDo(n, s0, HostStep(false));
    assert s1.host == HostLoop(Cas(0));
    s := Do(s1, HostStep(true));
    ReachableDo(n, s1, HostStep(true));
    forall evs: seq<Event> | Legal(s, evs) ensures Run(s, evs) == s {
      SpuriousFailureHangs(s, evs);
    }
  }

  /** Some run of `n` workers leaves rsched_host_yield without a way to return. */
  ghost predicate CanHang(n: nat, u: Setup) {
    exists s :: Reachable(n, s) && HasSetup(s, u) && Yielding(s) && !CanReturn(s)
  }

  /** With the weak CAS this can happen exactly when there is a task. */
  lemma CanHangIff(n: nat, u: Setup)
    requires Fits(u)
    ensures CanHang(n, u) <==> u.length >= 1
  {
    if CanHang(n, u) {
      var s :| Reachable(n, s) && HasSetup(s, u) && Yielding(s) && !CanReturn(s);
      CanReturnIff(n, s);
    }
    if u.length >= 1 {
      var s := SpuriousHangIsReachable(n, u);
    }
  }
}
