/** The block timing counters of benchmark.c, updated by concurrent calls. */
module Stats {
  import opened Machine
  import opened Sequences

  /** Where one call is: the atomic operation it does next. `seen` is the local copy that a
      failed exchange refreshes. */
  datatype Stage = LoadMin | LowerMin(seen: U64) | LoadMax | RaiseMax(seen: U64) | AddTotal | AddCount | Finished

  datatype Call = Call(sample: U64, stage: Stage)

  datatype State = State(min: U64, max: U64, total: U64, count: U64, calls: seq<Call>)

  /** benchmark_create, before calls with these samples. */
  function Init(samples: seq<U64>): State {
    State(CELL - 1, 0, 0, 0, seq(|samples|, i requires 0 <= i < |samples| => Call(samples[i], LoadMin)))
  }

  function At(s: State, i: nat, stage: Stage): State
    requires i < |s.calls|
  {
    s.(calls := s.calls[i := s.calls[i].(stage := stage)])
  }

  /** The next atomic operation of call `i`. A weak exchange may fail for no reason. */
  function Step(s: State, i: nat, spurious: bool): State
    requires i < |s.calls|
  {
    var sample := s.calls[i].sample;
    match s.calls[i].stage
    case LoadMin => At(s, i, LowerMin(s.min))
    case LowerMin(seen) =>
      if seen <= sample then At(s, i, LoadMax)
      else if s.min == seen && !spurious then At(s.(min := sample), i, LoadMax)
      else At(s, i, LowerMin(s.min))
    case LoadMax => At(s, i, RaiseMax(s.max))
    case RaiseMax(seen) =>
      if seen >= sample then At(s, i, AddTotal)
      else if s.max == seen && !spurious then At(s.(max := sample), i, AddTotal)
      else At(s, i, RaiseMax(s.max))
    case AddTotal => At(s.(total := (s.total + sample) % CELL), i, AddCount)
    case AddCount => At(s.(count := (s.count + 1) % CELL), i, Finished)
    case Finished => s
  }

  /** A run: who moves, and whether an exchange fails for no reason. */
  function Run(s: State, moves: seq<(nat, bool)>): State
    decreases |moves|
  {
    if moves == [] then s
    else Run(if moves[0].0 < |s.calls| then Step(s, moves[0].0, moves[0].1) else s, moves[1..])
  }

  // ------------------------------------------------------------- invariant

  predicate PastMin(c: Call) { !c.stage.LoadMin? && !c.stage.LowerMin? }

  predicate PastMax(c: Call) { c.stage.AddTotal? || c.stage.AddCount? || c.stage.Finished? }

  predicate PastTotal(c: Call) { c.stage.AddCount? || c.stage.Finished? }

  /** The minimum only falls and the maximum only rises, so a local copy stays on its side. */
  ghost predicate CallOk(min: U64, max: U64, c: Call) {
    && (PastMin(c) ==> min <= c.sample)
    && (c.stage.LowerMin? ==> min <= c.stage.seen)
    && (PastMax(c) ==> c.sample <= max)
    && (c.stage.RaiseMax? ==> c.stage.seen <= max)
  }

  /** What call `c` has added to the total, and to the count. */
  function Added(c: Call): nat { if PastTotal(c) then c.sample else 0 }

  function Counted(c: Call): nat { if c.stage.Finished? then 1 else 0 }

  function Sum(calls: seq<Call>, share: Call -> nat): nat {
    if calls == [] then 0 else share(calls[0]) + Sum(calls[1..], share)
  }

  lemma {:induction false} SumUpdate(calls: seq<Call>, share: Call -> nat, i: nat, c: Call)
    requires i < |calls|
    ensures Sum(calls[i := c], share) == Sum(calls, share) - share(calls[i]) + share(c)
  {
    if i == 0 {
      assert calls[i := c][1..] == calls[1..];
    } else {
      assert calls[i := c][1..] == calls[1..][i - 1 := c];
      SumUpdate(calls[1..], share, i - 1, c);
    }
  }

  ghost predicate SomeoneSet(calls: seq<Call>, past: Call -> bool, value: U64) {
    exists i :: 0 <= i < |calls| && past(calls[i]) && calls[i].sample == value
  }

  ghost predicate Inv(s: State) {
    && (forall i :: 0 <= i < |s.calls| ==> CallOk(s.min, s.max, s.calls[i]))
    && (s.min == CELL - 1 || SomeoneSet(s.calls, PastMin, s.min))
    && (s.max == 0 || SomeoneSet(s.calls, PastMax, s.max))
    && s.total == Sum(s.calls, Added) % CELL
    && s.count == Sum(s.calls, Counted) % CELL
  }

  /** Changing the stage of a call, but not its sample, keeps whoever is past a point past it. */
  lemma SetByUpdate(calls: seq<Call>, past: Call -> bool, value: U64, i: nat, c: Call)
    requires i < |calls| && c.sample == calls[i].sample && (past(calls[i]) ==> past(c))
    requires SomeoneSet(calls, past, value) || (past(c) && c.sample == value)
    ensures SomeoneSet(calls[i := c], past, value)
  {
    if SomeoneSet(calls, past, value) {
      var j :| 0 <= j < |calls| && past(calls[j]) && calls[j].sample == value;
      assert past(calls[i := c][j]);
    } else {
      assert past(calls[i := c][i]);
    }
  }

  lemma MoverOk(s: State, i: nat, spurious: bool)
    requires i < |s.calls| && CallOk(s.min, s.max, s.calls[i])
    ensures var t := Step(s, i, spurious);
      && t.min <= s.min && s.max <= t.max && t.calls == s.calls[i := t.calls[i]]
      && CallOk(t.min, t.max, t.calls[i]) && t.calls[i].sample == s.calls[i].sample
  {
  }

  lemma StepKeepsCalls(s: State, i: nat, spurious: bool)
    requires Inv(s) && i < |s.calls|
    ensures var t := Step(s, i, spurious);
      && (forall j :: 0 <= j < |t.calls| ==> CallOk(t.min, t.max, t.calls[j]))
      && Samples(t.calls) == Samples(s.calls)
  {
    MoverOk(s, i, spurious);
    var t := Step(s, i, spurious);
    forall j | 0 <= j < |t.calls| ensures CallOk(t.min, t.max, t.calls[j]) {
      if j != i {
        assert CallOk(s.min, s.max, s.calls[j]);
      }
    }
  }

  lemma StepKeepsExtremes(s: State, i: nat, spurious: bool)
    requires Inv(s) && i < |s.calls|
    ensures var t := Step(s, i, spurious);
      && (t.min == CELL - 1 || SomeoneSet(t.calls, PastMin, t.min))
      && (t.max == 0 || SomeoneSet(t.calls, PastMax, t.max))
  {
    var t := Step(s, i, spurious);
    var c := t.calls[i];
    assert t.calls == s.calls[i := c];
    if t.min != CELL - 1 { SetByUpdate(s.calls, PastMin, t.min, i, c); }
    if t.max != 0 { SetByUpdate(s.calls, PastMax, t.max, i, c); }
  }

  lemma AddsUp(was: nat, more: nat)
    ensures (was % CELL + more) % CELL == (was + more) % CELL
  {
  }

  /** A share that grows by `more` at call `i`. */
  lemma SumGrows(calls: seq<Call>, share: Call -> nat, i: nat, c: Call, more: nat, cell: nat, newCell: nat)
    requires i < |calls| && share(c) == share(calls[i]) + more
    requires cell == Sum(calls, share) % CELL && newCell == (cell + more) % CELL
    ensures newCell == Sum(calls[i := c], share) % CELL
  {
    SumUpdate(calls, share, i, c);
    AddsUp(Sum(calls, share), more);
  }

  lemma SumStays(calls: seq<Call>, share: Call -> nat, i: nat, c: Call)
    requires i < |calls| && share(c) == share(calls[i])
    ensures Sum(calls[i := c], share) == Sum(calls, share)
  {
    SumUpdate(calls, share, i, c);
  }

  lemma StepKeepsTotal(s: State, i: nat, spurious: bool)
    requires i < |s.calls| && s.total == Sum(s.calls, Added) % CELL
    ensures Step(s, i, spurious).total == Sum(Step(s, i, spurious).calls, Added) % CELL
  {
    var t := Step(s, i, spurious);
    var c := t.calls[i];
    assert t.calls == s.calls[i := c];
    if s.calls[i].stage.AddTotal? {
      SumGrows(s.calls, Added, i, c, c.sample, s.total, t.total);
    } else {
      SumStays(s.calls, Added, i, c);
    }
  }

  lemma StepKeepsCount(s: State, i: nat, spurious: bool)
    requires i < |s.calls| && s.count == Sum(s.calls, Counted) % CELL
    ensures Step(s, i, spurious).count == Sum(Step(s, i, spurious).calls, Counted) % CELL
  {
    var t := Step(s, i, spurious);
    var c := t.calls[i];
    assert t.calls == s.calls[i := c];
    if s.calls[i].stage.AddCount? {
      SumGrows(s.calls, Counted, i, c, 1, s.count, t.count);
    } else {
      SumStays(s.calls, Counted, i, c);
    }
  }

  lemma {:induction false} RunKeepsInv(s: State, moves: seq<(nat, bool)>)
    requires Inv(s)
    ensures Inv(Run(s, moves)) && Samples(Run(s, moves).calls) == Samples(s.calls)
    decreases |moves|
  {
    if moves != [] {
      var (i, spurious) := moves[0];
      if i < |s.calls| {
        StepKeepsCalls(s, i, spurious);
        StepKeepsExtremes(s, i, spurious);
        StepKeepsTotal(s, i, spurious);
        StepKeepsCount(s, i, spurious);
        RunKeepsInv(Step(s, i, spurious), moves[1..]);
      } else {
        RunKeepsInv(s, moves[1..]);
      }
    }
  }

  function Samples(calls: seq<Call>): seq<U64> {
    seq(|calls|, i requires 0 <= i < |calls| => calls[i].sample)
  }

  lemma {:induction false} NothingYet(calls: seq<Call>, share: Call -> nat)
    requires forall i :: 0 <= i < |calls| ==> share(calls[i]) == 0
    ensures Sum(calls, share) == 0
  {
    if calls != [] { NothingYet(calls[1..], share); }
  }

  lemma InitInv(samples: seq<U64>)
    ensures Inv(Init(samples)) && Samples(Init(samples).calls) == samples
  {
    NothingYet(Init(samples).calls, Added);
    NothingYet(Init(samples).calls, Counted);
  }

  // --------------------------------------------------------------- theorem

  /** The samples of the finished calls. */
  function FinishedSamples(calls: seq<Call>): seq<U64> {
    if calls == [] then []
    else (if calls[0].stage.Finished? then [calls[0].sample] else []) + FinishedSamples(calls[1..])
  }

  function SumOf(samples: seq<U64>): nat {
    if samples == [] then 0 else samples[0] + SumOf(samples[1..])
  }

  lemma {:induction false} SumOfAppend(a: seq<U64>, b: seq<U64>, x: U64)
    ensures SumOf([x]) == x && SumOf(a + b) == SumOf(a) + SumOf(b)
  {
    FirstAndRest(a, b);
    if a == [] {
      assert SumOf([x][1..]) == 0;
    } else {
      SumOfAppend(a[1..], b, x);
    }
  }

  /** Every call is over or has not touched the counters yet. */
  predicate Quiet(calls: seq<Call>) {
    forall i :: 0 <= i < |calls| ==> calls[i].stage.Finished? || calls[i].stage.LoadMin?
  }

  lemma {:induction false} SumsAreFinished(calls: seq<Call>)
    requires Quiet(calls)
    ensures Sum(calls, Added) == SumOf(FinishedSamples(calls))
    ensures Sum(calls, Counted) == |FinishedSamples(calls)|
  {
    if calls != [] {
      assert Quiet(calls[1..]);
      SumsAreFinished(calls[1..]);
      var head := if calls[0].stage.Finished? then [calls[0].sample] else [];
      assert head == [] ==> FinishedSamples(calls) == FinishedSamples(calls[1..]);
      assert head != [] ==> FinishedSamples(calls)[1..] == FinishedSamples(calls[1..]);
    }
  }

  lemma {:induction false} FinishedMembers(calls: seq<Call>)
    ensures forall x :: x in FinishedSamples(calls) <==>
      exists i :: 0 <= i < |calls| && calls[i].stage.Finished? && calls[i].sample == x
  {
    if calls != [] {
      var all, rest := FinishedSamples(calls), FinishedSamples(calls[1..]);
      FinishedMembers(calls[1..]);
      forall x | x in all ensures exists i :: 0 <= i < |calls| && calls[i].stage.Finished? && calls[i].sample == x {
        if x in rest {
          var i :| 0 <= i < |calls[1..]| && calls[1..][i].stage.Finished? && calls[1..][i].sample == x;
          assert calls[i + 1].stage.Finished?;
        } else {
          assert calls[0].stage.Finished?;
        }
      }
      forall i | 0 <= i < |calls| && calls[i].stage.Finished? ensures calls[i].sample in all {
        if i > 0 {
          assert calls[1..][i - 1].stage.Finished?;
          assert calls[i].sample in rest;
        }
      }
    }
  }

  /** The counters say what the samples `done` are: true minimum and maximum, and the sum and
      the number as 64-bit counters hold them. */
  ghost predicate Summarises(s: State, done: seq<U64>) {
    && (forall x :: x in done ==> s.min <= x <= s.max)
    && (if done == [] then s.min == 0xFFFF_FFFF_FFFF_FFFF && s.max == 0 else s.min in done && s.max in done)
    && s.total == SumOf(done) % 0x1_0000_0000_0000_0000
    && s.count == |done| % 0x1_0000_0000_0000_0000
  }

  lemma QuietMeansSummarised(s: State)
    requires Inv(s) && Quiet(s.calls)
    ensures Summarises(s, FinishedSamples(s.calls))
  {
    var done := FinishedSamples(s.calls);
    SumsAreFinished(s.calls);
    FinishedMembers(s.calls);
    forall x | x in done ensures s.min <= x <= s.max {
      var i :| 0 <= i < |s.calls| && s.calls[i].stage.Finished? && s.calls[i].sample == x;
      assert CallOk(s.min, s.max, s.calls[i]);
    }
    if s.min != CELL - 1 {
      var i :| 0 <= i < |s.calls| && PastMin(s.calls[i]) && s.calls[i].sample == s.min;
      assert s.calls[i].stage.Finished? && s.min in done;
    } else if done != [] {
      assert done[0] in done && done[0] == s.min;
    }
    if s.max != 0 {
      var i :| 0 <= i < |s.calls| && PastMax(s.calls[i]) && s.calls[i].sample == s.max;
      assert s.calls[i].stage.Finished? && s.max in done;
    } else if done != [] {
      assert done[0] in done && done[0] == s.max;
    }
  }

  /** Whatever way any number of calls interleave, and however often an exchange fails, once
      every call that began has finished the counters summarise exactly their samples. */
  lemma CountersAreExact(samples: seq<U64>, moves: seq<(nat, bool)>)
    requires Quiet(Run(Init(samples), moves).calls)
    ensures Summarises(Run(Init(samples), moves), FinishedSamples(Run(Init(samples), moves).calls))
  {
    InitInv(samples);
    RunKeepsInv(Init(samples), moves);
    QuietMeansSummarised(Run(Init(samples), moves));
  }

  lemma {:induction false} AllFinished(calls: seq<Call>)
    requires forall i :: 0 <= i < |calls| ==> calls[i].stage.Finished?
    ensures FinishedSamples(calls) == Samples(calls)
  {
    if calls != [] {
      AllFinished(calls[1..]);
      assert Samples(calls) == [calls[0].sample] + Samples(calls[1..]);
    }
  }

  /** When all calls are finished, the counters summarise all samples. */
  lemma AllSamplesCounted(samples: seq<U64>, moves: seq<(nat, bool)>)
    requires var calls := Run(Init(samples), moves).calls;
             forall i :: 0 <= i < |calls| ==> calls[i].stage.Finished?
    ensures Summarises(Run(Init(samples), moves), samples)
  {
    InitInv(samples);
    RunKeepsInv(Init(samples), moves);
    CountersAreExact(samples, moves);
    AllFinished(Run(Init(samples), moves).calls);
  }

  // -------------------------------------------------------------- progress

  /** How many own steps call `i` takes from here to its end if nothing changes meanwhile:
      an exchange with an outdated local copy takes one more. */
  function StepsLeft(s: State, i: nat): nat
    requires i < |s.calls|
  {
    match s.calls[i].stage
    case LoadMin => 6
    case LowerMin(seen) => if seen <= s.calls[i].sample || seen == s.min then 5 else 6
    case LoadMax => 4
    case RaiseMax(seen) => if seen >= s.calls[i].sample || seen == s.max then 3 else 4
    case AddTotal => 2
    case AddCount => 1
    case Finished => 0
  }

  function MayLower(c: Call): nat { if PastMin(c) then 0 else 1 }

  function MayRaise(c: Call): nat { if PastMax(c) then 0 else 1 }

  /** Each call that has not changed an extreme yet may still outdate the copy of call `i`. */
  function Potential(s: State, i: nat): nat
    requires i < |s.calls|
  {
    StepsLeft(s, i) + Sum(s.calls, MayLower) + Sum(s.calls, MayRaise)
  }

  lemma {:induction false} SumsAfterStep(s: State, j: nat, spurious: bool)
    requires j < |s.calls|
    ensures var t := Step(s, j, spurious);
      && Sum(t.calls, MayLower) == Sum(s.calls, MayLower) - MayLower(s.calls[j]) + MayLower(t.calls[j])
      && Sum(t.calls, MayRaise) == Sum(s.calls, MayRaise) - MayRaise(s.calls[j]) + MayRaise(t.calls[j])
  {
    var t := Step(s, j, spurious);
    assert t.calls == s.calls[j := t.calls[j]];
    SumUpdate(s.calls, MayLower, j, t.calls[j]);
    SumUpdate(s.calls, MayRaise, j, t.calls[j]);
  }

  /** No step of any call takes call `i` further from its end than what it uses up, and an
      own step without a spurious failure takes it nearer. */
  lemma {:induction false} StepGetsNearer(s: State, i: nat, j: nat, spurious: bool)
    requires i < |s.calls| && j < |s.calls|
    ensures var t := Step(s, j, spurious);
      && |t.calls| == |s.calls| && Potential(t, i) <= Potential(s, i)
      && (j == i && !spurious && !s.calls[i].stage.Finished? ==> Potential(t, i) < Potential(s, i))
      && (s.calls[i].stage.Finished? ==> t.calls[i].stage.Finished?)
  {
    SumsAfterStep(s, j, spurious);
    if j == i {
      OwnStep(s, i, spurious);
    } else {
      OtherStep(s, i, j, spurious);
    }
  }

  lemma OwnStep(s: State, i: nat, spurious: bool)
    requires i < |s.calls|
    ensures var t := Step(s, i, spurious);
      && MayLower(t.calls[i]) <= MayLower(s.calls[i]) && MayRaise(t.calls[i]) <= MayRaise(s.calls[i])
      && StepsLeft(t, i) <= StepsLeft(s, i)
      && (!spurious && !s.calls[i].stage.Finished? ==> StepsLeft(t, i) < StepsLeft(s, i))
      && (s.calls[i].stage.Finished? ==> t == s)
  {
  }

  lemma OtherStep(s: State, i: nat, j: nat, spurious: bool)
    requires i < |s.calls| && j < |s.calls| && j != i
    ensures var t := Step(s, j, spurious);
      && t.calls[i] == s.calls[i]
      && MayLower(t.calls[j]) <= MayLower(s.calls[j]) && MayRaise(t.calls[j]) <= MayRaise(s.calls[j])
      && StepsLeft(t, i) + MayLower(t.calls[j]) + MayRaise(t.calls[j])
         <= StepsLeft(s, i) + MayLower(s.calls[j]) + MayRaise(s.calls[j])
  {
  }

  /** How many steps call `i` makes in a run, spurious failures not counted. */
  function OwnSteps(moves: seq<(nat, bool)>, i: nat): nat {
    if moves == [] then 0 else (if moves[0] == (i, false) then 1 else 0) + OwnSteps(moves[1..], i)
  }

  lemma {:induction false} RunGetsNearer(s: State, moves: seq<(nat, bool)>, i: nat)
    requires i < |s.calls|
    ensures var t := Run(s, moves);
      && |t.calls| == |s.calls|
      && (t.calls[i].stage.Finished? || Potential(t, i) + OwnSteps(moves, i) <= Potential(s, i))
      && (s.calls[i].stage.Finished? ==> t.calls[i].stage.Finished?)
    decreases |moves|
  {
    if moves != [] {
      var (j, spurious) := moves[0];
      if j < |s.calls| {
        StepGetsNearer(s, i, j, spurious);
        RunGetsNearer(Step(s, j, spurious), moves[1..], i);
      } else {
        RunGetsNearer(s, moves[1..], i);
      }
    }
  }

  lemma {:induction false} SumAtMost(calls: seq<Call>, share: Call -> nat)
    requires forall c :: share(c) <= 1
    ensures Sum(calls, share) <= |calls|
  {
    if calls != [] {
      SumAtMost(calls[1..], share);
    }
  }

  /** No call waits for another: in every run, from any state, whatever the others do and
      however often exchanges fail, a call that makes 6 + 2n steps without a spurious
      failure, among n calls, is finished. */
  lemma {:induction false} CallFinishes(s: State, moves: seq<(nat, bool)>, i: nat)
    requires i < |s.calls| && OwnSteps(moves, i) >= 6 + 2 * |s.calls|
    ensures |Run(s, moves).calls| == |s.calls| && Run(s, moves).calls[i].stage.Finished?
  {
    RunGetsNearer(s, moves, i);
    SumAtMost(s.calls, MayLower);
    SumAtMost(s.calls, MayRaise);
    if Potential(Run(s, moves), i) == 0 {
      assert StepsLeft(Run(s, moves), i) == 0;
    }
  }

  /** Total correctness: once each of n calls has made 6 + 2n steps without a spurious
      failure, the counters summarise all samples. */
  lemma {:induction false} CountersGetExact(samples: seq<U64>, moves: seq<(nat, bool)>)
    requires forall i :: 0 <= i < |samples| ==> OwnSteps(moves, i) >= 6 + 2 * |samples|
    ensures Summarises(Run(Init(samples), moves), samples)
  {
    InitInv(samples);
    RunKeepsInv(Init(samples), moves);
    forall i | 0 <= i < |samples|
      ensures |Run(Init(samples), moves).calls| == |samples| && Run(Init(samples), moves).calls[i].stage.Finished?
    {
      CallFinishes(Init(samples), moves, i);
    }
    AllSamplesCounted(samples, moves);
  }

  /** Left alone, a call is over in six steps. */
  lemma {:induction false} AloneInSix(s: State, i: nat)
    requires i < |s.calls|
    ensures var t := Run(s, Copies(6, (i, false)));
      |t.calls| == |s.calls| && t.calls[i].stage.Finished?
  {
    AloneFinishes(s, i, 6);
  }

  lemma {:induction false} AloneFinishes(s: State, i: nat, k: nat)
    requires i < |s.calls| && k >= StepsLeft(s, i)
    ensures var t := Run(s, Copies(k, (i, false)));
      |t.calls| == |s.calls| && t.calls[i].stage.Finished?
    decreases k
  {
    if k > 0 {
      OwnStep(s, i, false);
      assert Copies(k, (i, false))[1..] == Copies(k - 1, (i, false));
      AloneFinishes(Step(s, i, false), i, k - 1);
    }
  }

  lemma {:induction false} RunAppend(s: State, a: seq<(nat, bool)>, b: seq<(nat, bool)>)
    ensures Run(s, a + b) == Run(Run(s, a), b)
    decreases |a|
  {
    FirstAndRest(a, b);
    if a != [] {
      RunAppend(if a[0].0 < |s.calls| then Step(s, a[0].0, a[0].1) else s, a[1..], b);
    }
  }

  lemma {:induction false} CanFinishFrom(s: State, k: nat) returns (moves: seq<(nat, bool)>)
    requires k <= |s.calls| && forall i :: 0 <= i < k ==> s.calls[i].stage.Finished?
    ensures |Run(s, moves).calls| == |s.calls|
    ensures forall i :: 0 <= i < |s.calls| ==> Run(s, moves).calls[i].stage.Finished?
    decreases |s.calls| - k
  {
    if k == |s.calls| {
      moves := [];
    } else {
      var six := Copies(6, (k, false));
      AloneInSix(s, k);
      forall i | 0 <= i < k ensures Run(s, six).calls[i].stage.Finished? {
        RunGetsNearer(s, six, i);
      }
      var rest := CanFinishFrom(Run(s, six), k + 1);
      RunAppend(s, six, rest);
      moves := six + rest;
    }
  }

  /** So every run can be continued until the counters summarise all samples. */
  lemma {:induction false} CanGetExact(samples: seq<U64>, moves: seq<(nat, bool)>) returns (more: seq<(nat, bool)>)
    ensures Summarises(Run(Init(samples), moves + more), samples)
  {
    InitInv(samples);
    RunKeepsInv(Init(samples), moves);
    more := CanFinishFrom(Run(Init(samples), moves), 0);
    RunAppend(Init(samples), moves, more);
    AllSamplesCounted(samples, moves + more);
  }
}
