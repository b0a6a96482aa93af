/** The parallel check queue as a transition system: one master thread, any number of workers, and
    atomic steps that are the critical sections of the queue's loop and the single evaluations of
    checks outside them.  There is no stop request. */
module CheckQueueProtocol {

  datatype Check = Check(id: nat, passes: bool)

  predicate AllPass(cs: seq<Check>) { forall i :: 0 <= i < |cs| ==> cs[i].passes }

  // ---------------------------------------------------------------- the shared fields

  datatype Shared = Shared(queue: seq<Check>, nIdle: int, nTotal: int, allOk: bool, nTodo: int)

  /** How a thread comes into the critical section of the loop. */
  datatype Entry = First | Report(nNow: nat, ok: bool) | Woken

  /** How it leaves it. */
  datatype Outcome = Return(result: bool) | Block | Take(batch: seq<Check>, ok: bool)

  function Reverse(s: seq<Check>): (r: seq<Check>)
    ensures |r| == |s|
  {
    if s == [] then [] else [s[|s| - 1]] + Reverse(s[..|s| - 1])
  }

  function BatchSize(sh: Shared, maxBatch: nat): int
    requires sh.nTotal + sh.nIdle + 1 > 0
  {
    var share := |sh.queue| / (sh.nTotal + sh.nIdle + 1);
    var capped := if maxBatch < share then maxBatch else share;
    if capped < 1 then 1 else capped
  }

  /** Every batch has at least one check and at most what is queued. */
  lemma BatchSizeBounds(sh: Shared, maxBatch: nat)
    requires sh.nTotal + sh.nIdle + 1 > 0 && sh.queue != []
    ensures 1 <= BatchSize(sh, maxBatch) <= |sh.queue|
    ensures maxBatch >= 1 ==> BatchSize(sh, maxBatch) <= maxBatch
  {
    var d := sh.nTotal + sh.nIdle + 1;
    assert |sh.queue| / d * d <= |sh.queue|;
    assert |sh.queue| / d <= |sh.queue|;
  }

  /** What happens on entry: results of the last batch are merged, or the thread is counted. */
  function Arrive(sh: Shared, e: Entry): Shared {
    match e
    case First => sh.(nTotal := sh.nTotal + 1)
    case Report(nNow, ok) => sh.(allOk := sh.allOk && ok, nTodo := sh.nTodo - nNow)
    case Woken => sh.(nIdle := sh.nIdle - 1)
  }

  function Proceed(sh: Shared, maxBatch: nat, master: bool): (Shared, Outcome)
    requires sh.nTotal + sh.nIdle + 1 > 0
  {
    if sh.queue == [] then
      if master && sh.nTodo == 0 then (sh.(nTotal := sh.nTotal - 1, allOk := true), Return(sh.allOk))
      else (sh.(nIdle := sh.nIdle + 1), Block)
    else
      BatchSizeBounds(sh, maxBatch);
      var keep := |sh.queue| - BatchSize(sh, maxBatch);
      (sh.(queue := sh.queue[..keep]), Take(Reverse(sh.queue[keep..]), sh.allOk))
  }

  /** A worker that reports the last unfinished check wakes the master. */
  predicate Signals(sh: Shared, e: Entry, master: bool) {
    e.Report? && Arrive(sh, e).nTodo == 0 && !master
  }

  function Enqueue(sh: Shared, cs: seq<Check>): Shared {
    sh.(queue := sh.queue + cs, nTodo := sh.nTodo + |cs|)
  }

  // ---------------------------------------------------------------- threads and steps

  /** Where a thread is: outside the loop, about to enter its critical section for the first time,
      blocked on its condition variable, or evaluating the check at position `at` of its batch (past
      the end of the batch it is about to report). */
  datatype Thread = Outside | Entering | Blocked | Working(batch: seq<Check>, at: nat, ok: bool)

  /** Thread 0 is the master.  `added` has the checks added since the last answer, `answers` all
      answers given so far with the checks they are about, `signal` a pending wake-up of the master. */
  datatype System = System(
    sh: Shared, maxBatch: nat, threads: seq<Thread>, signal: bool,
    added: seq<Check>, answers: seq<(seq<Check>, bool)>)

  datatype Step = AddChecks(cs: seq<Check>) | CallWait | Run(i: nat)

  ghost predicate Init(s: System) {
    && |s.threads| >= 1 && s.threads[0] == Outside
    && (forall i :: 1 <= i < |s.threads| ==> s.threads[i] == Entering)
    && s.sh == Shared([], 0, 0, true, 0)
    && !s.signal && s.added == [] && s.answers == []
  }

  predicate Enabled(s: System, step: Step) {
    |s.threads| >= 1 &&
    match step
    case AddChecks(_) => s.threads[0] == Outside
    case CallWait => s.threads[0] == Outside
    case Run(i) => i < |s.threads| && s.threads[i] != Outside && s.sh.nTotal >= 0 && s.sh.nIdle >= 0
                   && (s.threads[i].Blocked? ==> s.sh.nIdle >= 1)
  }

  predicate InBatch(t: Thread) { t.Working? && t.at < |t.batch| }

  function EntryOf(t: Thread): Entry
    requires t != Outside && !InBatch(t)
  {
    match t
    case Entering => First
    case Blocked => Woken
    case Working(batch, _, ok) => Report(|batch|, ok)
  }

  /** Evaluates one check, unless a failure is already known. */
  function Evaluate(t: Thread): Thread
    requires InBatch(t)
  {
    Working(t.batch, t.at + 1, t.ok && t.batch[t.at].passes)
  }

  function Section(s: System, i: nat): System
    requires Enabled(s, Run(i)) && !InBatch(s.threads[i])
  {
    var e := EntryOf(s.threads[i]);
    var master := i == 0;
    var (sh, out) := Proceed(Arrive(s.sh, e), s.maxBatch, master);
    var signal := (s.signal && !(master && e.Woken?))
                  || (Signals(s.sh, e, master) && s.threads[0].Blocked?);
    match out
    case Return(result) =>
      s.(sh := sh, threads := s.threads[i := Outside], signal := signal,
         added := [], answers := s.answers + [(s.added, result)])
    case Block => s.(sh := sh, threads := s.threads[i := Blocked], signal := signal)
    case Take(batch, ok) => s.(sh := sh, threads := s.threads[i := Working(batch, 0, ok)], signal := signal)
  }

  function Do(s: System, step: Step): System
    requires Enabled(s, step)
  {
    match step
    case AddChecks(cs) => s.(sh := Enqueue(s.sh, cs), added := s.added + cs)
    case CallWait => s.(threads := s.threads[0 := Entering])
    case Run(i) =>
      if InBatch(s.threads[i]) then s.(threads := s.threads[i := Evaluate(s.threads[i])])
      else Section(s, i)
  }

  // ---------------------------------------------------------------- the invariant

  /** Checks in a batch that has not been reported yet. */
  function BatchOf(t: Thread): nat { if t.Working? then |t.batch| else 0 }

  function BlockedOne(t: Thread): nat { if t.Blocked? then 1 else 0 }

  function InLoopOne(t: Thread): nat { if t.Blocked? || t.Working? then 1 else 0 }

  function Sum(ts: seq<Thread>, weight: Thread -> nat): nat {
    if ts == [] then 0 else weight(ts[0]) + Sum(ts[1..], weight)
  }

  /** A failure that some thread has seen, or will see when it gets there. */
  predicate ThreadKnowsFailure(t: Thread) {
    t.Working? && t.at <= |t.batch| && (!t.ok || !AllPass(t.batch[t.at..]))
  }

  ghost predicate SomeThreadKnowsFailure(ts: seq<Thread>) {
    exists i :: 0 <= i < |ts| && ThreadKnowsFailure(ts[i])
  }

  /** Failures are never invented and never lost. */
  ghost predicate FailuresKept(s: System) {
    !AllPass(s.added)
    <==> !s.sh.allOk || SomeThreadKnowsFailure(s.threads) || !AllPass(s.sh.queue)
  }

  /** Batches in hand are never empty; only the master may be outside the loop. */
  ghost predicate ThreadsOk(ts: seq<Thread>) {
    && |ts| >= 1
    && (forall i :: 0 <= i < |ts| && ts[i].Working? ==> ts[i].at <= |ts[i].batch| && |ts[i].batch| >= 1)
    && (forall i :: 1 <= i < |ts| ==> ts[i] != Outside)
  }

  /** nTodo is queued checks plus checks in unreported batches; idle and total threads are exact. */
  ghost predicate CountersOk(s: System) {
    && s.sh.nTodo == |s.sh.queue| + Sum(s.threads, BatchOf)
    && s.sh.nIdle == Sum(s.threads, BlockedOne)
    && s.sh.nTotal == Sum(s.threads, InLoopOne)
  }

  /** While the master is blocked nothing is queued, and either it has been signalled, with all work done,
      or work is out. */
  ghost predicate SignalOk(s: System)
    requires |s.threads| >= 1
  {
    && (s.threads[0].Blocked? ==> s.sh.queue == [])
    && (s.threads[0].Blocked? && !s.signal ==> s.sh.nTodo > 0)
    && (s.signal ==> s.threads[0].Blocked? && s.sh.nTodo == 0)
  }

  ghost predicate AnswersOk(s: System) {
    forall k :: 0 <= k < |s.answers| ==> s.answers[k].1 == AllPass(s.answers[k].0)
  }

  ghost predicate Inv(s: System) {
    ThreadsOk(s.threads) && CountersOk(s) && FailuresKept(s) && SignalOk(s) && AnswersOk(s)
  }

  // ---------------------------------------------------------------- sums and batches

  lemma {:induction false} SumUpdate(ts: seq<Thread>, i: nat, t: Thread, weight: Thread -> nat)
    requires i < |ts|
    ensures Sum(ts[i := t], weight) == Sum(ts, weight) - weight(ts[i]) + weight(t)
    ensures weight(ts[i]) <= Sum(ts, weight)
  {
    if i == 0 {
      assert ts[i := t][1..] == ts[1..];
    } else {
      assert ts[i := t][1..] == ts[1..][i - 1 := t];
      SumUpdate(ts[1..], i - 1, t, weight);
    }
  }

  lemma {:induction false} SumPositive(ts: seq<Thread>, weight: Thread -> nat) returns (i: nat)
    requires Sum(ts, weight) > 0
    ensures i < |ts| && weight(ts[i]) > 0
  {
    if weight(ts[0]) > 0 {
      i := 0;
    } else {
      i := SumPositive(ts[1..], weight);
      i := i + 1;
    }
  }

  lemma {:induction false} ReverseAllPass(cs: seq<Check>)
    ensures AllPass(Reverse(cs)) <==> AllPass(cs)
  {
    if cs != [] {
      var last := |cs| - 1;
      ReverseAllPass(cs[..last]);
      assert cs == cs[..last] + [cs[last]];
      AllPassConcat(cs[..last], [cs[last]]);
      AllPassConcat([cs[last]], Reverse(cs[..last]));
    }
  }

  lemma AllPassConcat(a: seq<Check>, b: seq<Check>)
    ensures AllPass(a + b) <==> AllPass(a) && AllPass(b)
  {
    if AllPass(a + b) {
      forall i | 0 <= i < |a| ensures a[i].passes { assert (a + b)[i] == a[i]; }
      forall i | 0 <= i < |b| ensures b[i].passes { assert (a + b)[|a| + i] == b[i]; }
    }
  }

  // ---------------------------------------------------------------- every step keeps the invariant

  lemma InitInv(s: System)
    requires Init(s)
    ensures Inv(s)
  {
    SumNone(s.threads, BatchOf);
    SumNone(s.threads, BlockedOne);
    SumNone(s.threads, InLoopOne);
  }

  lemma {:induction false} SumNone(ts: seq<Thread>, weight: Thread -> nat)
    requires forall i :: 0 <= i < |ts| ==> weight(ts[i]) == 0
    ensures Sum(ts, weight) == 0
  {
    if ts != [] {
      SumNone(ts[1..], weight);
    }
  }

  /** In a sound state every thread inside the loop can take its next step. */
  lemma RunEnabled(s: System, i: nat)
    requires Inv(s) && i < |s.threads| && s.threads[i] != Outside
    ensures Enabled(s, Run(i))
  {
    SumUpdate(s.threads, i, Outside, BlockedOne);
  }

  lemma AddKeepsInv(s: System, cs: seq<Check>)
    requires Inv(s) && Enabled(s, AddChecks(cs))
    ensures Inv(Do(s, AddChecks(cs)))
  {
    AllPassConcat(s.added, cs);
    AllPassConcat(s.sh.queue, cs);
  }

  lemma CallWaitKeepsInv(s: System)
    requires Inv(s) && Enabled(s, CallWait)
    ensures Inv(Do(s, CallWait))
  {
    SumUpdate(s.threads, 0, Entering, BatchOf);
    SumUpdate(s.threads, 0, Entering, BlockedOne);
    SumUpdate(s.threads, 0, Entering, InLoopOne);
    KnowledgeUpdate(s.threads, 0, Entering);
  }

  /** What some thread knows changes by what the one changed thread knows. */
  lemma KnowledgeUpdate(ts: seq<Thread>, i: nat, t: Thread)
    requires i < |ts|
    ensures SomeThreadKnowsFailure(ts) <==>
      ThreadKnowsFailure(ts[i]) || exists j :: 0 <= j < |ts| && j != i && ThreadKnowsFailure(ts[j])
    ensures SomeThreadKnowsFailure(ts[i := t]) <==>
      ThreadKnowsFailure(t) || exists j :: 0 <= j < |ts| && j != i && ThreadKnowsFailure(ts[j])
  {
    if j :| 0 <= j < |ts| && j != i && ThreadKnowsFailure(ts[j]) {
      assert ThreadKnowsFailure(ts[i := t][j]);
    }
    if ThreadKnowsFailure(t) {
      assert ThreadKnowsFailure(ts[i := t][i]);
    }
  }

  lemma EvaluateKeepsInv(s: System, i: nat)
    requires Inv(s) && Enabled(s, Run(i)) && InBatch(s.threads[i])
    ensures Inv(Do(s, Run(i)))
  {
    var t, u := s.threads[i], Evaluate(s.threads[i]);
    SumUpdate(s.threads, i, u, BatchOf);
    SumUpdate(s.threads, i, u, BlockedOne);
    SumUpdate(s.threads, i, u, InLoopOne);
    KnowledgeUpdate(s.threads, i, u);
    assert t.batch[t.at..] == [t.batch[t.at]] + t.batch[u.at..];
    AllPassConcat([t.batch[t.at]], t.batch[u.at..]);
    assert ThreadKnowsFailure(t) <==> ThreadKnowsFailure(u);
  }

  /** After the thread has arrived, with it taken out of the sums, all else is accounted for. */
  lemma ArriveAccounts(s: System, i: nat)
    requires Inv(s) && Enabled(s, Run(i)) && !InBatch(s.threads[i])
    ensures var sh := Arrive(s.sh, EntryOf(s.threads[i])); var rest := s.threads[i := Entering];
      && sh.nTodo == |sh.queue| + Sum(rest, BatchOf)
      && sh.nIdle == Sum(rest, BlockedOne)
      && sh.nTotal == Sum(rest, InLoopOne) + 1
      && (!AllPass(s.added) <==> !sh.allOk || SomeThreadKnowsFailure(rest) || !AllPass(sh.queue))
  {
    var t := s.threads[i];
    SumUpdate(s.threads, i, Entering, BatchOf);
    SumUpdate(s.threads, i, Entering, BlockedOne);
    SumUpdate(s.threads, i, Entering, InLoopOne);
    KnowledgeUpdate(s.threads, i, Entering);
    if t.Working? {
      assert t.batch[t.at..] == [];
    }
  }

  lemma TakeKeepsFailures(queue: seq<Check>, keep: nat, ok: bool)
    requires keep < |queue|
    ensures var t := Working(Reverse(queue[keep..]), 0, ok);
      (!ok || !AllPass(queue)) <==> ThreadKnowsFailure(t) || !AllPass(queue[..keep])
  {
    var batch := Reverse(queue[keep..]);
    ReverseAllPass(queue[keep..]);
    assert queue == queue[..keep] + queue[keep..];
    AllPassConcat(queue[..keep], queue[keep..]);
    assert batch[0..] == batch;
  }

  lemma PlaceThread(rest: seq<Thread>, i: nat, t: Thread)
    requires i < |rest| && rest[i] == Entering
    ensures Sum(rest[i := t], BatchOf) == Sum(rest, BatchOf) + BatchOf(t)
    ensures Sum(rest[i := t], BlockedOne) == Sum(rest, BlockedOne) + BlockedOne(t)
    ensures Sum(rest[i := t], InLoopOne) == Sum(rest, InLoopOne) + InLoopOne(t)
    ensures SomeThreadKnowsFailure(rest[i := t]) <==> SomeThreadKnowsFailure(rest) || ThreadKnowsFailure(t)
  {
    SumUpdate(rest, i, t, BatchOf);
    SumUpdate(rest, i, t, BlockedOne);
    SumUpdate(rest, i, t, InLoopOne);
    KnowledgeUpdate(rest, i, t);
  }

  lemma NoWorkNoKnowledge(ts: seq<Thread>)
    requires Sum(ts, BatchOf) == 0
    requires forall i :: 0 <= i < |ts| && ts[i].Working? ==> |ts[i].batch| >= 1
    ensures !SomeThreadKnowsFailure(ts)
  {
    forall i | 0 <= i < |ts| ensures !ThreadKnowsFailure(ts[i]) {
      SumUpdate(ts, i, Outside, BatchOf);
    }
  }

  lemma ReturnKeepsInv(s: System, i: nat)
    requires Inv(s) && Enabled(s, Run(i)) && !InBatch(s.threads[i])
    requires Proceed(Arrive(s.sh, EntryOf(s.threads[i])), s.maxBatch, i == 0).1.Return?
    ensures Inv(Section(s, i))
  {
    var rest := s.threads[i := Entering];
    ArriveAccounts(s, i);
    PlaceThread(rest, i, Outside);
    var t := Section(s, i);
    assert t.threads == rest[i := Outside];
    NoWorkNoKnowledge(rest);
    NoWorkNoKnowledge(t.threads);
  }

  lemma BlockKeepsInv(s: System, i: nat)
    requires Inv(s) && Enabled(s, Run(i)) && !InBatch(s.threads[i])
    requires Proceed(Arrive(s.sh, EntryOf(s.threads[i])), s.maxBatch, i == 0).1.Block?
    ensures Inv(Section(s, i))
  {
    var rest := s.threads[i := Entering];
    ArriveAccounts(s, i);
    PlaceThread(rest, i, Blocked);
    var t := Section(s, i);
    assert t.threads == rest[i := Blocked];
  }

  /** What a thread with a fresh batch counts for. */
  lemma TakeWeights()
    ensures forall batch: seq<Check>, ok: bool ::
      var t := Working(batch, 0, ok); BatchOf(t) == |batch| && BlockedOne(t) == 0 && InLoopOne(t) == 1
  {
  }

  lemma TakeKeepsInv(s: System, i: nat)
    requires Inv(s) && Enabled(s, Run(i)) && !InBatch(s.threads[i])
    requires Proceed(Arrive(s.sh, EntryOf(s.threads[i])), s.maxBatch, i == 0).1.Take?
    ensures Inv(Section(s, i))
  {
    hide AllPass, Sum, SomeThreadKnowsFailure, ThreadKnowsFailure, BatchSize, Reverse, BatchOf, BlockedOne, InLoopOne;
    TakeWeights();
    var arrived := Arrive(s.sh, EntryOf(s.threads[i]));
    var (sh, out) := Proceed(arrived, s.maxBatch, i == 0);
    var rest := s.threads[i := Entering];
    ArriveAccounts(s, i);
    BatchSizeBounds(arrived, s.maxBatch);
    PlaceThread(rest, i, Working(out.batch, 0, out.ok));
    var t := Section(s, i);
    assert t.threads == rest[i := Working(out.batch, 0, out.ok)];
    TakeKeepsFailures(arrived.queue, |arrived.queue| - BatchSize(arrived, s.maxBatch), out.ok);
  }

  lemma SectionKeepsInv(s: System, i: nat)
    requires Inv(s) && Enabled(s, Run(i)) && !InBatch(s.threads[i])
    ensures Inv(Do(s, Run(i)))
  {
    hide Inv;
    ArriveAccountsTotal(s, i);
    match Proceed(Arrive(s.sh, EntryOf(s.threads[i])), s.maxBatch, i == 0).1
    case Return(_) => ReturnKeepsInv(s, i);
    case Block => BlockKeepsInv(s, i);
    case Take(_, _) => TakeKeepsInv(s, i);
  }

  lemma ArriveAccountsTotal(s: System, i: nat)
    requires Inv(s) && Enabled(s, Run(i)) && !InBatch(s.threads[i])
    ensures var sh := Arrive(s.sh, EntryOf(s.threads[i])); sh.nTotal + sh.nIdle + 1 > 0
  {
    ArriveAccounts(s, i);
  }

  lemma StepKeepsInv(s: System, step: Step)
    requires Inv(s) && Enabled(s, step)
    ensures Inv(Do(s, step))
  {
    match step
    case AddChecks(cs) => AddKeepsInv(s, cs);
    case CallWait => CallWaitKeepsInv(s);
    case Run(i) =>
      if InBatch(s.threads[i]) {
        EvaluateKeepsInv(s, i);
      } else {
        SectionKeepsInv(s, i);
      }
  }

  // ---------------------------------------------------------------- every interleaving

  ghost predicate IsRun(states: seq<System>, steps: seq<Step>) {
    && |states| == |steps| + 1 && Init(states[0])
    && forall k :: 0 <= k < |steps| ==> IsStep(states[k], steps[k], states[k + 1])
  }

  ghost predicate IsStep(s: System, step: Step, t: System) {
    Enabled(s, step) && t == Do(s, step)
  }

  lemma {:induction false} RunKeepsInv(states: seq<System>, steps: seq<Step>, k: nat)
    requires IsRun(states, steps) && k <= |steps|
    ensures Inv(states[k])
  {
    hide Inv;
    if k == 0 {
      InitInv(states[0]);
    } else {
      var j := k - 1;
      RunKeepsInv(states, steps, j);
      assert IsStep(states[j], steps[j], states[j + 1]);
      StepKeepsInv(states[j], steps[j]);
    }
  }

  /** In every interleaving, Wait answers true exactly when every check added since the last answer
      passes, although checks are skipped once a failure is known. */
  lemma AnswersAreRight(states: seq<System>, steps: seq<Step>, k: nat, a: nat)
    requires IsRun(states, steps) && k <= |steps| && a < |states[k].answers|
    ensures states[k].answers[a].1 == AllPass(states[k].answers[a].0)
  {
    RunKeepsInv(states, steps, k);
  }

  /** When Wait returns, the queue is empty, nothing is unfinished, no batch is out, and the result
      flag is ready for the next round; the answer is about all checks added since the last one. */
  lemma ReturnLeavesClean(s: System, i: nat)
    requires Inv(s) && Enabled(s, Run(i)) && !InBatch(s.threads[i])
    requires Proceed(Arrive(s.sh, EntryOf(s.threads[i])), s.maxBatch, i == 0).1.Return?
    ensures var t := Do(s, Run(i));
      && i == 0 && t.threads[0] == Outside
      && t.sh.queue == [] && t.sh.nTodo == 0 && t.sh.allOk && t.added == []
      && t.answers == s.answers + [(s.added, AllPass(s.added))]
      && forall j :: 0 <= j < |t.threads| ==> !t.threads[j].Working?
  {
    SectionKeepsInv(s, i);
    ArriveAccounts(s, i);
    var t := Section(s, i);
    NoWorkNoKnowledge(s.threads[i := Entering]);
    forall j | 0 <= j < |t.threads| ensures !t.threads[j].Working? {
      SumUpdate(t.threads, j, Outside, BatchOf);
    }
  }

  /** The final wake-up is never lost: while the master is blocked and nobody has signalled it, some
      worker still holds a batch that it has not reported. */
  lemma MasterNotForgotten(s: System) returns (i: nat)
    requires Inv(s) && s.threads[0].Blocked? && !s.signal
    ensures 1 <= i < |s.threads| && s.threads[i].Working? && |s.threads[i].batch| >= 1
    ensures s.sh.nTodo == Sum(s.threads, BatchOf)
  {
    i := SumPositive(s.threads, BatchOf);
  }

  /** While the master waits for its answer, some thread is on its way or the master has been signalled. */
  lemma NoDeadlock(s: System)
    requires Inv(s) && s.threads[0] != Outside
    ensures (exists i: nat :: i < |s.threads| && (s.threads[i].Entering? || s.threads[i].Working?)) || s.signal
  {
    if s.threads[0].Blocked? && !s.signal {
      var i := MasterNotForgotten(s);
      assert s.threads[i].Working?;
    }
  }

  // ---------------------------------------------------------------- every round comes to its answer

  /** What a thread still has to do, by where it is. */
  function Load(t: Thread): nat {
    match t
    case Outside => 0
    case Blocked => 1
    case Entering => 2
    case Working(batch, at, _) => 3 + if at <= |batch| then |batch| - at else 0
  }

  function Measure(s: System): nat { 4 * |s.sh.queue| + Sum(s.threads, Load) }

  /** What the loop's outcomes leave to do, against a queue of `n` checks and the thread's load before. */
  lemma OutcomeMeasure(sh: Shared, maxBatch: nat, master: bool)
    requires sh.nTotal + sh.nIdle + 1 > 0
    ensures var (after, out) := Proceed(sh, maxBatch, master);
      match out
      case Return(_) => after.queue == sh.queue
      case Block => after == sh.(nIdle := sh.nIdle + 1) && sh.queue == [] && !(master && sh.nTodo == 0)
      case Take(batch, ok) => 4 * |after.queue| + Load(Working(batch, 0, ok)) < 4 * |sh.queue| + 1
  {
    if sh.queue != [] {
      BatchSizeBounds(sh, maxBatch);
    }
  }

  /** A thread that wakes up and blocks again changes nothing; every other step of a thread brings the
      measure down. */
  lemma RunMoves(s: System, i: nat)
    requires Inv(s) && Enabled(s, Run(i))
    ensures Do(s, Run(i)) == s || Measure(Do(s, Run(i))) < Measure(s)
    ensures Do(s, Run(i)) == s ==> s.threads[i].Blocked? && (i == 0 ==> !s.signal)
  {
    hide AllPass, FailuresKept, AnswersOk, Sum, Proceed, BatchSize;
    var t := Do(s, Run(i));
    SumUpdate(s.threads, i, t.threads[i], Load);
    assert t.threads == s.threads[i := t.threads[i]];
    if !InBatch(s.threads[i]) {
      ArriveAccountsTotal(s, i);
      OutcomeMeasure(Arrive(s.sh, EntryOf(s.threads[i])), s.maxBatch, i == 0);
      if s.threads[i].Blocked? && Proceed(Arrive(s.sh, Woken), s.maxBatch, i == 0).1.Block? {
        assert s.threads[i := Blocked] == s.threads;
      }
    }
  }

  /** While the master waits for its answer, some thread can take a step that brings the measure down. */
  lemma SomeoneMoves(s: System) returns (i: nat)
    requires Inv(s) && s.threads[0] != Outside
    ensures Enabled(s, Run(i)) && Measure(Do(s, Run(i))) < Measure(s)
  {
    assert |s.threads| >= 1;
    hide Inv, Measure, Do;
    NoDeadlock(s);
    if s.signal {
      i := 0;
    } else {
      i :| i < |s.threads| && (s.threads[i].Entering? || s.threads[i].Working?);
    }
    RunEnabled(s, i);
    RunMoves(s, i);
  }

  /** A run of the threads alone, in which every step changes something. */
  ghost predicate Moving(s: System, runs: seq<nat>)
    decreases |runs|
  {
    runs == []
    || (Enabled(s, Run(runs[0])) && Do(s, Run(runs[0])) != s && Moving(Do(s, Run(runs[0])), runs[1..]))
  }

  /** However the threads are scheduled, they change something only so many times until the next checks
      are added; and as some thread can change something while the master waits, its answer comes. */
  lemma {:induction false} MovesAreBounded(s: System, runs: seq<nat>)
    requires Inv(s) && Moving(s, runs)
    ensures |runs| <= Measure(s)
    decreases |runs|
  {
    hide Inv, Measure, Do;
    if runs != [] {
      RunMoves(s, runs[0]);
      StepKeepsInv(s, Run(runs[0]));
      MovesAreBounded(Do(s, Run(runs[0])), runs[1..]);
    }
  }

  /** A run that cannot change anything any more has given the master its answer. */
  lemma StuckIsAnswered(s: System)
    requires Inv(s)
    requires forall i: nat :: Enabled(s, Run(i)) ==> Do(s, Run(i)) == s
    ensures s.threads[0] == Outside
  {
    assert |s.threads| >= 1;
    hide Inv, Measure, Do, Enabled;
    if s.threads[0] != Outside {
      var i := SomeoneMoves(s);
    }
  }
}
