/** The render scheduler as a system of interleaved atomic steps.

    One host thread and any number of workers share a task counter, and every
    worker shares two atomic cells, `signal` and `status`, with the host. Each
    atomic load, store, exchange and compare-and-swap of the scheduler is one
    step here, as is each float store made by the user function. The CAS is the
    weak form: it may fail although the cell holds the expected value.
 */
module Protocol {
  import opened Geometry
  import opened Sequences
  import opened Wrappers

  // ---------------------------------------------------------------- state

  datatype Signal = NoSignal | Start | Locked

  // `Created` is the zero the worker structure is allocated with.
  datatype Status = Created | Waiting | Running | Down

  /** What a thread inside the task loop is about to do. */
  datatype Work =
    | Load                            // first load of the counter in pop
    | Cas(expected: nat)              // compare-and-swap in pop
    | Call(task: nat, done: nat)      // user function, `done` stores made so far

  datatype Pc =
    | SetWaiting | Poll | Release             // rsched_worker_yield
    | ReadContext | SetRunning | Unlock       // handling of START
    | Loop(work: Work)                        // rsched_worker_loop
    | Receive | Rearm                         // signal check after each task
    | Quiet                                   // pop found nothing: clear the signal
    | ExitDown | ExitUnlock | Gone            // worker_exit

  datatype HostPc =
    | Idle(ok: bool)                          // between calls, with the last result
    | SetContext(next: nat)                   // update_workers_user_ctx
    | Send(target: nat, expected: Signal)     // rsched_send_worker_sig
    | HostLoop(work: Work)                    // task loop of rsched_host_yield
    | WaitSignal(target: nat)                 // rsched_get_worker_state, spin on signal
    | WaitStatus(target: nat)                 // rsched_get_worker_state, load of state

  /** A user function with its context: the float stores it makes for a tile, in order. */
  type Painter = Tile -> seq<Store>

  datatype Worker = Worker(pc: Pc, signal: Signal, status: Status,
                           shared: Option<Painter>, local: Option<Painter>)

  /** `claims`, `runs` and `total` are history: who claimed index i since the last
      reset, how often its call finished since then, and how often it ever did. */
  datatype State = State(
    host: HostPc, workers: seq<Worker>, context: Option<Painter>,
    counter: nat, length: nat, slots: seq<Tile>, image: seq<real>,
    claims: seq<nat>, runs: multiset<nat>, total: multiset<nat>)

  datatype Event =
    | WorkerStep(id: nat, spurious: bool)
    | HostStep(spurious: bool)
    | Yield                                       // enter rsched_host_yield
    | Requeue                                     // rsched_requeue
    | CreateTasks(slots: seq<Tile>, length: nat)  // rsched_create_tasks, already split
    | SetUserContext(painter: Option<Painter>)    // enter rsched_set_user_context
    | SetBuffer(image: seq<real>)                 // surface_set_buffer

  /** rsched_create after its threads exist: no worker has taken a step and the host
      is about to wait for all of them. */
  function Init(n: nat): State {
    State(AfterWait(0, n), seq(n, _ => Worker(SetWaiting, NoSignal, Created, None, None)), None,
          0, 0, [], [], [], multiset{}, multiset{})
  }

  function AfterSend(next: nat, n: nat): HostPc {
    if next < n then Send(next, NoSignal) else HostLoop(Load)
  }

  function AfterWait(next: nat, n: nat): HostPc {
    if next < n then WaitSignal(next) else Idle(true)
  }

  function AfterContext(next: nat, n: nat): HostPc {
    if next < n then SetContext(next) else Idle(true)
  }

  // ------------------------------------------------------------ queue pop

  datatype PopStep = Claimed(index: nat) | Retry(expected: nat) | Empty

  /** The load that opens rsched_queue_pop, with the bound check behind it. */
  function PopLoad(counter: nat, length: nat): PopStep {
    if counter >= length then Empty else Retry(counter)
  }

  /** One turn of the CAS loop. A failing CAS overwrites the expected value with the
      counter, and the loop body then increments that refreshed value. */
  function PopCas(counter: nat, length: nat, expected: nat, spurious: bool): PopStep {
    if counter == expected && !spurious then Claimed(expected)
    else if counter >= length then Empty
    else Retry(counter + 1)
  }

  // ---------------------------------------------------------------- steps

  /** The stores the call for slot `task` makes. */
  function StoresOf(s: State, f: Option<Painter>, task: nat): seq<Store> {
    if f.Some? && task < |s.slots| then f.value(s.slots[task]) else []
  }

  function Put(s: State, i: nat, w: Worker): State
    requires i < |s.workers|
  {
    s.(workers := s.workers[i := w])
  }

  function Go(s: State, i: nat, pc: Pc): State
    requires i < |s.workers|
  {
    Put(s, i, s.workers[i].(pc := pc))
  }

  /** Thread `t` wins the CAS on the counter. */
  function Claim(s: State, t: nat): State {
    s.(counter := s.counter + 1, claims := s.claims + [t])
  }

  function Finish(s: State, task: nat): State {
    s.(runs := s.runs + multiset{task}, total := s.total + multiset{task})
  }

  function Store1(s: State, st: Store): State {
    s.(image := ApplyStore(s.image, st))
  }

  function WorkerPop(s: State, i: nat, p: PopStep): State
    requires i < |s.workers|
  {
    match p
    case Claimed(index) => Go(Claim(s, i), i, Loop(Call(index, 0)))
    case Retry(e) => Go(s, i, Loop(Cas(e)))
    case Empty => Go(s, i, Quiet)
  }

  function WorkerCall(s: State, i: nat, task: nat, done: nat): State
    requires i < |s.workers|
  {
    var stores := StoresOf(s, s.workers[i].local, task);
    if done < |stores| then Go(Store1(s, stores[done]), i, Loop(Call(task, done + 1)))
    else Go(Finish(s, task), i, Receive)
  }

  /** The next atomic step of worker `i`. */
  function WorkerDo(s: State, i: nat, spurious: bool): State
    requires i < |s.workers|
  {
    var w := s.workers[i];
    match w.pc
    case SetWaiting => Put(s, i, w.(status := Waiting, pc := Poll))
    case Poll => Put(s, i, w.(signal := Locked,
                              pc := match w.signal
                                    case NoSignal => Release
                                    case Start => ReadContext
                                    case Locked => ExitDown))
    case Release => Put(s, i, w.(signal := NoSignal, pc := Poll))
    case ReadContext =>
      if w.shared.None? then Go(s, i, ExitDown)
      else Put(s, i, w.(local := w.shared, pc := SetRunning))
    case SetRunning => Put(s, i, w.(status := Running, pc := Unlock))
    case Unlock => Put(s, i, w.(signal := NoSignal, pc := Loop(Load)))
    case Loop(Load) => WorkerPop(s, i, PopLoad(s.counter, s.length))
    case Loop(Cas(e)) => WorkerPop(s, i, PopCas(s.counter, s.length, e, spurious))
    case Loop(Call(task, done)) => WorkerCall(s, i, task, done)
    case Receive => Put(s, i, w.(signal := Locked,
                                 pc := if w.signal == Locked then ExitDown else Rearm))
    case Rearm => Put(s, i, w.(signal := NoSignal, pc := Loop(Load)))
    case Quiet => Put(s, i, w.(signal := NoSignal, pc := SetWaiting))
    case ExitDown => Put(s, i, w.(status := Down, pc := ExitUnlock))
    case ExitUnlock => Put(s, i, w.(signal := NoSignal, pc := Gone))
    case Gone => s
  }

  function HostPop(s: State, p: PopStep): State {
    match p
    case Claimed(index) => Claim(s, |s.workers|).(host := HostLoop(Call(index, 0)))
    case Retry(e) => s.(host := HostLoop(Cas(e)))
    case Empty => s.(host := AfterWait(0, |s.workers|))
  }

  function HostCall(s: State, task: nat, done: nat): State {
    var stores := StoresOf(s, s.context, task);
    if done < |stores| then Store1(s, stores[done]).(host := HostLoop(Call(task, done + 1)))
    else Finish(s, task).(host := HostLoop(Load))
  }

  /** The host's CAS on a worker's signal. On failure the expected value is refreshed
      and never reset, so a later turn may replace Locked by Start. */
  function HostSend(s: State, i: nat, expected: Signal, spurious: bool): State
    requires i < |s.workers|
  {
    var w := s.workers[i];
    if w.signal == expected && !spurious then
      Put(s, i, w.(signal := Start)).(host := AfterSend(i + 1, |s.workers|))
    else s.(host := Send(i, w.signal))
  }

  function HostWaitStatus(s: State, i: nat): HostPc
    requires i < |s.workers|
  {
    match s.workers[i].status
    case Waiting => AfterWait(i + 1, |s.workers|)
    case Down => Idle(false)
    case _ => WaitSignal(i)
  }

  ghost predicate HostInRange(s: State) {
    match s.host
    case SetContext(i) => i < |s.workers|
    case Send(i, _) => i < |s.workers|
    case WaitSignal(i) => i < |s.workers|
    case WaitStatus(i) => i < |s.workers|
    case _ => true
  }

  /** The next atomic step of the host. */
  ghost function HostDo(s: State, spurious: bool): State
    requires HostInRange(s)
  {
    match s.host
    case Idle(_) => s
    case SetContext(i) =>
      Put(s, i, s.workers[i].(shared := s.context)).(host := AfterContext(i + 1, |s.workers|))
    case Send(i, e) => HostSend(s, i, e, spurious)
    case HostLoop(Load) => HostPop(s, PopLoad(s.counter, s.length))
    case HostLoop(Cas(e)) => HostPop(s, PopCas(s.counter, s.length, e, spurious))
    case HostLoop(Call(task, done)) => HostCall(s, task, done)
    case WaitSignal(i) => if s.workers[i].signal == NoSignal then s.(host := WaitStatus(i)) else s
    case WaitStatus(i) => s.(host := HostWaitStatus(s, i))
  }

  /** The calls the host may make on the scheduler, all of them from its own thread. */
  ghost predicate Enabled(s: State, e: Event) {
    match e
    case WorkerStep(i, _) => i < |s.workers| && s.workers[i].pc != Gone
    case HostStep(_) => HostInRange(s) && !s.host.Idle?
    case CreateTasks(slots, length) => s.host.Idle? && length <= |slots|
    case _ => s.host.Idle?
  }

  ghost function Do(s: State, e: Event): State
    requires Enabled(s, e)
  {
    match e
    case WorkerStep(i, spurious) => WorkerDo(s, i, spurious)
    case HostStep(spurious) => HostDo(s, spurious)
    case Yield =>
      if s.context.None? then s.(host := Idle(false))
      else s.(host := AfterSend(0, |s.workers|))
    case Requeue => s.(counter := 0, claims := [], runs := multiset{})
    case CreateTasks(slots, length) =>
      s.(slots := slots, length := length, counter := 0, claims := [],
         runs := multiset{}, total := multiset{})
    case SetUserContext(f) => s.(context := f, host := AfterContext(0, |s.workers|))
    case SetBuffer(image) => s.(image := image)
  }

  // ----------------------------------------------------------------- runs

  ghost predicate Legal(s: State, evs: seq<Event>)
    decreases |evs|
  {
    evs == [] || (Enabled(s, evs[0]) && Legal(Do(s, evs[0]), evs[1..]))
  }

  ghost function Run(s: State, evs: seq<Event>): State
    requires Legal(s, evs)
    decreases |evs|
  {
    if evs == [] then s else Run(Do(s, evs[0]), evs[1..])
  }

  /** `s` can occur in some interleaving of a scheduler with `n` workers. */
  ghost predicate Reachable(n: nat, s: State) {
    exists evs :: Legal(Init(n), evs) && Run(Init(n), evs) == s
  }

  lemma {:induction false} RunFirst(s: State, e: Event, rest: seq<Event>)
    requires Enabled(s, e) && Legal(Do(s, e), rest)
    ensures Legal(s, [e] + rest) && Run(s, [e] + rest) == Run(Do(s, e), rest)
  {
    assert ([e] + rest)[0] == e && ([e] + rest)[1..] == rest;
  }

  lemma {:induction false} RunAppend(s: State, a: seq<Event>, b: seq<Event>)
    requires Legal(s, a) && Legal(Run(s, a), b)
    ensures Legal(s, a + b) && Run(s, a + b) == Run(Run(s, a), b)
    decreases |a|
  {
    FirstAndRest(a, b);
    if a != [] {
      RunAppend(Do(s, a[0]), a[1..], b);
      RunFirst(s, a[0], a[1..] + b);
    }
  }

  lemma ReachableRun(n: nat, s: State, evs: seq<Event>)
    requires Reachable(n, s) && Legal(s, evs)
    ensures Reachable(n, Run(s, evs))
  {
    var pre :| Legal(Init(n), pre) && Run(Init(n), pre) == s;
    RunAppend(Init(n), pre, evs);
  }

  lemma ReachableDo(n: nat, s: State, e: Event)
    requires Reachable(n, s) && Enabled(s, e)
    ensures Reachable(n, Do(s, e))
  {
    RunFirst(s, e, []);
    assert [e] + [] == [e];
    ReachableRun(n, s, [e]);
  }
}
