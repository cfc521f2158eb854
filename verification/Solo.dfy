/** One thread of the scheduler left alone: the way of a worker through a round, cell by
    cell, and how a worker that exits ends the host's call. */
module Solo {
  import opened Geometry
  import opened Protocol
  import opened Wrappers

  /** The state after `k` steps of worker `i`, of which no CAS fails spuriously. */
  function After(s: State, i: nat, k: nat): (t: State)
    requires i < |s.workers|
    ensures |t.workers| == |s.workers|
  {
    if k == 0 then s else WorkerDo(After(s, i, k - 1), i, false)
  }

  lemma {:induction false} NoStep(s: State, i: nat, w: Worker)
    requires i < |s.workers| && s.workers[i] == w
    ensures After(s, i, 0) == Put(s, i, w)
  {
    assert s.workers[i := w] == s.workers;
  }

  /** A step that changes nothing but the worker's own cells. */
  lemma {:induction false} OwnStep(s: State, i: nat, k: nat, v: Worker, w: Worker)
    requires i < |s.workers| && After(s, i, k) == Put(s, i, v)
    requires WorkerDo(Put(s, i, v), i, false) == Put(Put(s, i, v), i, w)
    ensures After(s, i, k + 1) == Put(s, i, w)
  {
    assert s.workers[i := v][i := w] == s.workers[i := w];
  }

  /** A START takes the worker into the task loop: it locks the cell, takes its context,
      says that it runs, unlocks the cell, and only then pops. */
  lemma {:induction false} StartIsHandled(s: State, i: nat)
    requires i < |s.workers| && s.workers[i].pc == Poll && s.workers[i].signal == Start
    requires s.workers[i].shared.Some? && s.counter < s.length
    ensures var w := s.workers[i];
      && After(s, i, 1) == Put(s, i, w.(pc := ReadContext, signal := Locked))
      && After(s, i, 2) == Put(s, i, w.(pc := SetRunning, signal := Locked, local := w.shared))
      && After(s, i, 3) == Put(s, i, w.(pc := Unlock, signal := Locked, status := Running, local := w.shared))
      && After(s, i, 4) == Put(s, i, Worker(Loop(Load), NoSignal, Running, w.shared, w.shared))
      && After(s, i, 5) == Put(s, i, Worker(Loop(Cas(s.counter)), NoSignal, Running, w.shared, w.shared))
      && After(s, i, 6) == Put(s.(counter := s.counter + 1, claims := s.claims + [i]), i,
                               Worker(Loop(Call(s.counter, 0)), NoSignal, Running, w.shared, w.shared))
  {
    var w := s.workers[i];
    var w1, w2 := w.(pc := ReadContext, signal := Locked), w.(pc := SetRunning, signal := Locked, local := w.shared);
    var w3, w4 := w2.(pc := Unlock, status := Running), Worker(Loop(Load), NoSignal, Running, w.shared, w.shared);
    var w5 := w4.(pc := Loop(Cas(s.counter)));
    NoStep(s, i, w);
    OwnStep(s, i, 0, w, w1);
    OwnStep(s, i, 1, w1, w2);
    OwnStep(s, i, 2, w2, w3);
    OwnStep(s, i, 3, w3, w4);
    OwnStep(s, i, 4, w4, w5);
    ClaimStep(s, i, w5);
  }

  lemma {:induction false} ClaimStep(s: State, i: nat, w: Worker)
    requires i < |s.workers| && After(s, i, 5) == Put(s, i, w) && w.pc == Loop(Cas(s.counter))
    ensures After(s, i, 6) == Put(s.(counter := s.counter + 1, claims := s.claims + [i]), i,
                                  w.(pc := Loop(Call(s.counter, 0))))
  {
    assert s.workers[i := w][i := w.(pc := Loop(Call(s.counter, 0)))]
        == s.workers[i := w.(pc := Loop(Call(s.counter, 0)))];
  }

  /** The stores of slot `task` by worker `i`. */
  function OwnStores(s: State, i: nat, task: nat): seq<Store>
    requires i < |s.workers|
  {
    StoresOf(s, s.workers[i].local, task)
  }

  /** `k` of the stores of a call are made. */
  function MidCall(s: State, i: nat, task: nat, k: nat): State
    requires i < |s.workers| && k <= |OwnStores(s, i, task)|
  {
    Put(s.(image := Apply(s.image, OwnStores(s, i, task)[..k])), i, s.workers[i].(pc := Loop(Call(task, k))))
  }

  lemma {:induction false} ApplyNext(image: seq<real>, stores: seq<Store>, k: nat)
    requires k < |stores|
    ensures Apply(image, stores[..k + 1]) == ApplyStore(Apply(image, stores[..k]), stores[k])
  {
    assert stores[..k + 1] == stores[..k] + [stores[k]];
    ApplyAppend(image, stores[..k], [stores[k]]);
    ApplyOne(Apply(image, stores[..k]), stores[k]);
  }

  lemma StoreStep(s: State, i: nat, task: nat, k: nat)
    requires i < |s.workers| && k < |OwnStores(s, i, task)|
    ensures WorkerDo(MidCall(s, i, task, k), i, false) == MidCall(s, i, task, k + 1)
  {
    var stores := OwnStores(s, i, task);
    ApplyNext(s.image, stores, k);
    assert StoresOf(MidCall(s, i, task, k), s.workers[i].local, task) == stores;
    assert s.workers[i := s.workers[i].(pc := Loop(Call(task, k)))][i := s.workers[i].(pc := Loop(Call(task, k + 1)))]
        == s.workers[i := s.workers[i].(pc := Loop(Call(task, k + 1)))];
  }

  lemma {:induction false} StoreAfter(s: State, i: nat, task: nat, k: nat)
    requires i < |s.workers| && k < |OwnStores(s, i, task)| && After(s, i, k) == MidCall(s, i, task, k)
    ensures After(s, i, k + 1) == MidCall(s, i, task, k + 1)
  {
    StoreStep(s, i, task, k);
  }

  lemma {:induction false} StoresAreMade(s: State, i: nat, task: nat, k: nat)
    requires i < |s.workers| && s.workers[i].pc == Loop(Call(task, 0)) && k <= |OwnStores(s, i, task)|
    ensures After(s, i, k) == MidCall(s, i, task, k)
  {
    if k == 0 {
      assert OwnStores(s, i, task)[..0] == [];
      NoStep(s, i, s.workers[i]);
    } else {
      StoresAreMade(s, i, task, k - 1);
      StoreAfter(s, i, task, k - 1);
    }
  }

  lemma LastStep(s: State, i: nat, task: nat)
    requires i < |s.workers|
    ensures var stores := OwnStores(s, i, task);
      WorkerDo(MidCall(s, i, task, |stores|), i, false)
      == Put(s.(image := Apply(s.image, stores), runs := s.runs + multiset{task}, total := s.total + multiset{task}),
             i, s.workers[i].(pc := Receive))
  {
    var stores := OwnStores(s, i, task);
    assert stores[..|stores|] == stores;
    assert StoresOf(MidCall(s, i, task, |stores|), s.workers[i].local, task) == stores;
    assert s.workers[i := s.workers[i].(pc := Loop(Call(task, |stores|)))][i := s.workers[i].(pc := Receive)]
        == s.workers[i := s.workers[i].(pc := Receive)];
  }

  /** A call makes exactly the stores of its slot, in order, one step each; then it is
      finished once, and the worker goes to look for a signal. */
  lemma {:induction false} CallRuns(s: State, i: nat, task: nat)
    requires i < |s.workers| && s.workers[i].pc == Loop(Call(task, 0))
    ensures var stores := OwnStores(s, i, task);
      After(s, i, |stores| + 1)
      == Put(s.(image := Apply(s.image, stores), runs := s.runs + multiset{task}, total := s.total + multiset{task}),
             i, s.workers[i].(pc := Receive))
  {
    var stores := OwnStores(s, i, task);
    StoresAreMade(s, i, task, |stores|);
    assert stores[..|stores|] == stores;
    LastStep(s, i, task);
  }

  /** After its last task a worker looks for a signal, unlocks its cell, finds the queue used
      up and clears the cell. */
  lemma {:induction false} WorkerStops(s: State, i: nat)
    requires i < |s.workers| && s.workers[i].pc == Receive && s.workers[i].signal != Locked
    requires s.counter >= s.length
    ensures var w := s.workers[i];
      && After(s, i, 1) == Put(s, i, w.(pc := Rearm, signal := Locked))
      && After(s, i, 2) == Put(s, i, w.(pc := Loop(Load), signal := NoSignal))
      && After(s, i, 3) == Put(s, i, w.(pc := Quiet, signal := NoSignal))
      && After(s, i, 4) == Put(s, i, w.(pc := SetWaiting, signal := NoSignal))
  {
    var w := s.workers[i];
    var w1, w2 := w.(pc := Rearm, signal := Locked), w.(pc := Loop(Load), signal := NoSignal);
    NoStep(s, i, w);
    OwnStep(s, i, 0, w, w1);
    OwnStep(s, i, 1, w1, w2);
    OwnStep(s, i, 2, w2, w2.(pc := Quiet));
    OwnStep(s, i, 3, w2.(pc := Quiet), w2.(pc := SetWaiting));
  }

  /** Then it says that it waits, and goes on locking and unlocking its cell. */
  lemma {:induction false} WorkerParks(s: State, i: nat)
    requires i < |s.workers| && s.workers[i].pc == SetWaiting && s.workers[i].signal == NoSignal
    ensures var w := s.workers[i];
      && After(s, i, 1) == Put(s, i, w.(pc := Poll, status := Waiting))
      && After(s, i, 2) == Put(s, i, w.(pc := Release, signal := Locked, status := Waiting))
      && After(s, i, 3) == After(s, i, 1)
  {
    var w := s.workers[i];
    var w1, w2 := w.(pc := Poll, status := Waiting), w.(pc := Release, signal := Locked, status := Waiting);
    NoStep(s, i, w);
    OwnStep(s, i, 0, w, w1);
    OwnStep(s, i, 1, w1, w2);
    OwnStep(s, i, 2, w2, w1);
  }

  /** A worker that is started without a user function, or that receives LOCKED where it
      expects a signal, exits: down, its cell unlocked, in three steps. */
  lemma {:induction false} WorkerExits(s: State, i: nat)
    requires i < |s.workers|
    requires var w := s.workers[i];
      || (w.pc == ReadContext && w.shared.None?)
      || ((w.pc == Poll || w.pc == Receive) && w.signal == Locked)
    ensures After(s, i, 3) == Put(s, i, s.workers[i].(pc := Gone, signal := NoSignal, status := Down))
  {
    var w := s.workers[i];
    var w1 := w.(pc := ExitDown);
    NoStep(s, i, w);
    OwnStep(s, i, 0, w, w1);
    OwnStep(s, i, 1, w1, w1.(pc := ExitUnlock, status := Down));
    OwnStep(s, i, 2, w1.(pc := ExitUnlock, status := Down), w1.(pc := Gone, signal := NoSignal, status := Down));
  }

  /** The host that waits for such a worker gives up: its call fails, and changes nothing
      else. */
  lemma {:induction false} DownEndsTheCall(s: State, i: nat)
    requires i < |s.workers| && s.host == WaitSignal(i)
    requires s.workers[i].signal == NoSignal && s.workers[i].status == Down
    ensures Legal(s, [HostStep(false), HostStep(false)])
    ensures Run(s, [HostStep(false), HostStep(false)]) == s.(host := Idle(false))
  {
    var t := s.(host := WaitStatus(i));
    assert Do(s, HostStep(false)) == t && Do(t, HostStep(false)) == s.(host := Idle(false));
    assert Run(s.(host := Idle(false)), []) == s.(host := Idle(false));
    RunFirst(t, HostStep(false), []);
    assert [HostStep(false)] + [] == [HostStep(false)];
    RunFirst(s, HostStep(false), [HostStep(false)]);
    assert [HostStep(false)] + [HostStep(false)] == [HostStep(false), HostStep(false)];
  }

  /** Without a user function rsched_host_yield fails at once: it sends nothing, waits for
      nobody and leaves queue and pixels alone. */
  lemma YieldWithoutContext(s: State)
    requires s.host.Idle? && s.context.None?
    ensures Legal(s, [Yield]) && Run(s, [Yield]) == s.(host := Idle(false))
  {
    assert Do(s, Yield) == s.(host := Idle(false));
    RunFirst(s, Yield, []);
    assert [Yield] + [] == [Yield];
  }
}
