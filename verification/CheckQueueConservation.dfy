/** Which checks the threads of the check queue evaluate: none twice, none that was not added, and all of
    them unless one fails. */
module CheckQueueConservation {
  import opened CheckQueueProtocol

  // ---------------------------------------------------------------- the size of a batch

  /** A batch is no more than the caller's limit or than an even share of the queue among all threads, with
      the idle ones counted twice and one to spare; among such sizes it is the largest, but one at least. */
  lemma BatchIsShare(sh: Shared, maxBatch: nat)
    requires sh.nTotal + sh.nIdle + 1 > 0
    ensures var n, sharers := BatchSize(sh, maxBatch), sh.nTotal + sh.nIdle + 1;
      && n >= 1
      && (n > 1 ==> n <= maxBatch && n * sharers <= |sh.queue|)
      && (n >= maxBatch || (n + 1) * sharers > |sh.queue|)
  {
    var sharers := sh.nTotal + sh.nIdle + 1;
    var share := |sh.queue| / sharers;
    assert share * sharers <= |sh.queue| < share * sharers + sharers;
    var n := BatchSize(sh, maxBatch);
    if n <= share {
      assert (share - n) * sharers >= 0;
    } else {
      assert (n - share) * sharers >= 0;
    }
  }

  // ---------------------------------------------------------------- what was evaluated

  /** A system with the checks evaluated and the checks reported since the last answer. */
  datatype Traced = Traced(s: System, executed: multiset<Check>, reported: multiset<Check>)

  /** The step gives the master its answer. */
  predicate Answers(s: System, step: Step)
    requires Enabled(s, step)
  {
    && step.Run? && !InBatch(s.threads[step.i])
    && Proceed(Arrive(s.sh, EntryOf(s.threads[step.i])), s.maxBatch, step.i == 0).1.Return?
  }

  /** The check that the step evaluates, if any: the next one of a batch, unless a failure is known. */
  function Evaluated(s: System, step: Step): multiset<Check>
    requires Enabled(s, step)
  {
    if step.Run? && InBatch(s.threads[step.i]) && s.threads[step.i].ok
    then multiset{s.threads[step.i].batch[s.threads[step.i].at]}
    else multiset{}
  }

  /** The checks whose batch the step reports. */
  function Reported(s: System, step: Step): multiset<Check>
    requires Enabled(s, step)
  {
    if step.Run? && s.threads[step.i].Working? && !InBatch(s.threads[step.i])
    then multiset(s.threads[step.i].batch)
    else multiset{}
  }

  function DoTraced(t: Traced, step: Step): Traced
    requires Enabled(t.s, step)
  {
    if Answers(t.s, step) then Traced(Do(t.s, step), multiset{}, multiset{})
    else Traced(Do(t.s, step), t.executed + Evaluated(t.s, step), t.reported + Reported(t.s, step))
  }

  // ---------------------------------------------------------------- batches in hand

  /** How often a check is in a thread's batch. */
  function Whole(c: Check): Thread -> nat { (t: Thread) => if t.Working? then multiset(t.batch)[c] else 0 }

  /** How often it is in the part of the batch that the thread has been through. */
  function Done(c: Check): Thread -> nat {
    (t: Thread) => if t.Working? && t.at <= |t.batch| then multiset(t.batch[..t.at])[c] else 0
  }

  // ---------------------------------------------------------------- the invariant

  /** No thread and not the result knows of a failure. */
  ghost predicate NoneFailed(s: System) {
    s.sh.allOk && forall i :: 0 <= i < |s.threads| && s.threads[i].Working? ==> s.threads[i].ok
  }

  /** A check that was added is queued, in one batch, or reported; it was evaluated no more often than the
      threads have been through it, and just as often unless some check failed. */
  ghost predicate ConservedAt(t: Traced, c: Check) {
    && multiset(t.s.added)[c] == multiset(t.s.sh.queue)[c] + Sum(t.s.threads, Whole(c)) + t.reported[c]
    && t.executed[c] <= Sum(t.s.threads, Done(c)) + t.reported[c]
    && (NoneFailed(t.s) ==> t.executed[c] == Sum(t.s.threads, Done(c)) + t.reported[c])
  }

  /** A failure is known only if a check was evaluated and failed. */
  ghost predicate FailureSeen(t: Traced) {
    !NoneFailed(t.s) ==> exists c :: c in t.executed && !c.passes
  }

  ghost predicate Conserved(t: Traced) { Inv(t.s) && FailureSeen(t) && forall c :: ConservedAt(t, c) }

  lemma {:induction false} ReverseSame(cs: seq<Check>)
    ensures multiset(Reverse(cs)) == multiset(cs)
  {
    if cs != [] {
      var last := |cs| - 1;
      ReverseSame(cs[..last]);
      assert cs == cs[..last] + [cs[last]];
    }
  }

  lemma InitConserved(s: System)
    requires Init(s)
    ensures Conserved(Traced(s, multiset{}, multiset{}))
  {
    InitInv(s);
    hide Inv;
    forall c ensures ConservedAt(Traced(s, multiset{}, multiset{}), c) {
      SumNone(s.threads, Whole(c));
      SumNone(s.threads, Done(c));
    }
  }

  lemma AddConserves(t: Traced, cs: seq<Check>, c: Check)
    requires ConservedAt(t, c) && Enabled(t.s, AddChecks(cs))
    ensures ConservedAt(DoTraced(t, AddChecks(cs)), c)
  {
    hide Sum, Whole, Done;
    assert multiset(t.s.added + cs)[c] == multiset(t.s.added)[c] + multiset(cs)[c];
    assert multiset(t.s.sh.queue + cs)[c] == multiset(t.s.sh.queue)[c] + multiset(cs)[c];
    assert NoneFailed(Do(t.s, AddChecks(cs))) == NoneFailed(t.s);
  }

  /** Only this thread changed; what it knows of failures did not. */
  ghost predicate OnlyThread(s: System, u: System, i: nat) {
    && i < |s.threads| == |u.threads| && u.threads == s.threads[i := u.threads[i]]
    && Fails(u.threads[i]) == Fails(s.threads[i]) && u.sh.allOk == s.sh.allOk
  }

  predicate Fails(t: Thread) { t.Working? && !t.ok }

  lemma SameFailures(s: System, u: System, i: nat)
    requires OnlyThread(s, u, i)
    ensures NoneFailed(u) == NoneFailed(s)
  {
    NoneFailedMeans(s);
    NoneFailedMeans(u);
    assert forall j :: 0 <= j < |s.threads| && j != i ==> u.threads[j] == s.threads[j];
  }

  lemma NoneFailedMeans(s: System)
    ensures NoneFailed(s) <==> s.sh.allOk && forall i :: 0 <= i < |s.threads| ==> !Fails(s.threads[i])
  {
  }

  lemma WaitConserves(t: Traced, c: Check)
    requires ConservedAt(t, c) && Enabled(t.s, CallWait)
    ensures ConservedAt(DoTraced(t, CallWait), c)
  {
    hide Sum;
    SumUpdate(t.s.threads, 0, Entering, Whole(c));
    SumUpdate(t.s.threads, 0, Entering, Done(c));
    SameFailures(t.s, Do(t.s, CallWait), 0);
  }

  lemma EvaluatedPart(w: Thread, c: Check)
    requires InBatch(w)
    ensures Whole(c)(Evaluate(w)) == Whole(c)(w)
    ensures Done(c)(Evaluate(w)) == Done(c)(w) + multiset{w.batch[w.at]}[c]
    ensures Fails(Evaluate(w)) == (Fails(w) || !w.batch[w.at].passes)
  {
    assert w.batch[..w.at + 1] == w.batch[..w.at] + [w.batch[w.at]];
  }

  lemma EvaluateFailures(s: System, i: nat)
    requires Enabled(s, Run(i)) && InBatch(s.threads[i])
    ensures NoneFailed(Do(s, Run(i))) ==> NoneFailed(s) && !Fails(s.threads[i])
    ensures NoneFailed(s) && s.threads[i].batch[s.threads[i].at].passes ==> NoneFailed(Do(s, Run(i)))
  {
    var u := Do(s, Run(i));
    NoneFailedMeans(s);
    NoneFailedMeans(u);
    assert u.threads[i] == Evaluate(s.threads[i]);
    assert forall j :: 0 <= j < |u.threads| && j != i ==> u.threads[j] == s.threads[j];
    if NoneFailed(u) {
      assert !Fails(u.threads[i]);
    }
  }

  /** One more check of a batch: it was evaluated if the thread knew of no failure. */
  lemma EvaluateConserves(t: Traced, i: nat, c: Check)
    requires ConservedAt(t, c) && Enabled(t.s, Run(i)) && InBatch(t.s.threads[i])
    ensures ConservedAt(DoTraced(t, Run(i)), c)
  {
    hide Sum, Whole, Done, NoneFailed;
    var w := t.s.threads[i];
    SumUpdate(t.s.threads, i, Evaluate(w), Whole(c));
    SumUpdate(t.s.threads, i, Evaluate(w), Done(c));
    EvaluatedPart(w, c);
    EvaluateFailures(t.s, i);
  }

  /** A failure becomes known only because the check was evaluated and failed. */
  lemma EvaluateSees(t: Traced, i: nat)
    requires FailureSeen(t) && Enabled(t.s, Run(i)) && InBatch(t.s.threads[i])
    ensures FailureSeen(DoTraced(t, Run(i)))
  {
    hide NoneFailed;
    EvaluateFailures(t.s, i);
    var w := t.s.threads[i];
    var next := w.batch[w.at];
    if !NoneFailed(t.s) {
      var c :| c in t.executed && !c.passes;
      assert c in t.executed + Evaluated(t.s, Run(i));
    } else if !next.passes {
      NoneFailedMeans(t.s);
      assert !Fails(w);
      assert next in t.executed + Evaluated(t.s, Run(i));
    }
  }

  /** A critical section that gives no answer moves checks from the queue into the thread's batch only. */
  lemma SectionMoves(s: System, i: nat, c: Check)
    requires Inv(s) && Enabled(s, Run(i)) && !InBatch(s.threads[i]) && !Answers(s, Run(i))
    ensures var u := Section(s, i);
      && u.threads == s.threads[i := u.threads[i]] && u.added == s.added
      && multiset(s.sh.queue)[c] == multiset(u.sh.queue)[c] + Whole(c)(u.threads[i])
      && Done(c)(u.threads[i]) == 0
  {
    hide Inv, BatchSize, Reverse, Whole, Done;
    ArriveAccountsTotal(s, i);
    TakenConserves(Arrive(s.sh, EntryOf(s.threads[i])), s.maxBatch, i == 0, c);
    FreshBatch(Section(s, i).threads[i], c);
  }

  /** A batch may be reported, and another one taken. */
  lemma SectionConserves(t: Traced, i: nat, c: Check)
    requires Inv(t.s) && ConservedAt(t, c) && Enabled(t.s, Run(i)) && !InBatch(t.s.threads[i])
      && !Answers(t.s, Run(i))
    ensures ConservedAt(DoTraced(t, Run(i)), c)
  {
    hide Sum, Inv, Whole, Done, NoneFailed, Section, Proceed;
    var u := Section(t.s, i);
    WholeIsDone(t.s, i, c);
    SectionMoves(t.s, i, c);
    SectionFailures(t.s, i);
    SumUpdate(t.s.threads, i, u.threads[i], Whole(c));
    SumUpdate(t.s.threads, i, u.threads[i], Done(c));
  }

  lemma FreshBatch(t: Thread, c: Check)
    ensures !t.Working? ==> Whole(c)(t) == Done(c)(t) == 0
    ensures t.Working? ==> Whole(c)(t) == multiset(t.batch)[c] && (t.at == 0 ==> Done(c)(t) == 0)
  {
    if t.Working? && t.at == 0 {
      assert t.batch[..0] == [];
    }
  }

  /** A batch that is ready to be reported was gone through to its end. */
  lemma WholeIsDone(s: System, i: nat, c: Check)
    requires Inv(s) && i < |s.threads| && !InBatch(s.threads[i])
    ensures Whole(c)(s.threads[i]) == Done(c)(s.threads[i])
    ensures Whole(c)(s.threads[i]) == if s.threads[i].Working? then multiset(s.threads[i].batch)[c] else 0
  {
    var t := s.threads[i];
    if t.Working? {
      assert t.batch[..t.at] == t.batch;
    }
  }

  lemma TakenConserves(sh: Shared, maxBatch: nat, master: bool, c: Check)
    requires sh.nTotal + sh.nIdle + 1 > 0
    ensures var (after, out) := Proceed(sh, maxBatch, master);
      && (out.Take? ==>
            multiset(sh.queue)[c] == multiset(after.queue)[c] + multiset(out.batch)[c] && out.ok == after.allOk)
      && (!out.Take? ==> after.queue == sh.queue)
  {
    if sh.queue != [] {
      BatchSizeBounds(sh, maxBatch);
      var keep := |sh.queue| - BatchSize(sh, maxBatch);
      hide BatchSize;
      ReverseSame(sh.queue[keep..]);
      assert sh.queue == sh.queue[..keep] + sh.queue[keep..];
    }
  }

  /** A critical section passes on what is known of failures: from the batch that is reported to the result,
      and from there to the batch that is taken, of which nothing will be evaluated if there was one. */
  lemma SectionFailures(s: System, i: nat)
    requires Inv(s) && Enabled(s, Run(i)) && !InBatch(s.threads[i]) && !Answers(s, Run(i))
    ensures NoneFailed(Section(s, i)) == NoneFailed(s)
    ensures var u := Section(s, i);
      && |u.threads| == |s.threads| && (u.threads[i].Working? ==> u.threads[i].ok == u.sh.allOk && u.threads[i].at == 0)
      && u.sh.allOk == (s.sh.allOk && !Fails(s.threads[i]))
      && u.added == s.added
  {
    hide Sum, Inv, BatchSize, Reverse;
    ArriveAccountsTotal(s, i);
    var u := Section(s, i);
    NoneFailedMeans(s);
    NoneFailedMeans(u);
    assert forall j :: 0 <= j < |u.threads| && j != i ==> u.threads[j] == s.threads[j];
  }

  // ---------------------------------------------------------------- every step and every answer

  lemma OthersAreDone(s: System, i: nat, c: Check)
    requires Inv(s) && Enabled(s, Run(i)) && Answers(s, Run(i))
    ensures Sum(s.threads, Whole(c)) == Sum(s.threads, Done(c)) && s.sh.queue == []
    ensures i == 0 && Do(s, Run(i)).answers == s.answers + [(s.added, AllPass(s.added))]
    ensures NoneFailed(s) == AllPass(s.added)
  {
    hide Sum, Inv, Whole, Done, AllPass;
    ReturnLeavesClean(s, i);
    var u := Do(s, Run(i));
    forall j | 0 <= j < |s.threads|
      ensures Whole(c)(s.threads[j]) == Done(c)(s.threads[j]) && (j != i ==> !Fails(s.threads[j]))
    {
      if j == i {
        WholeIsDone(s, i, c);
      } else {
        assert u.threads[j] == s.threads[j];
        FreshBatch(s.threads[j], c);
      }
    }
    SumSame(s.threads, Whole(c), Done(c));
    NoneFailedMeans(s);
    assert u.answers[|s.answers|].1 == (s.sh.allOk && !Fails(s.threads[i]));
  }

  lemma {:induction false} SumSame(ts: seq<Thread>, a: Thread -> nat, b: Thread -> nat)
    requires forall i :: 0 <= i < |ts| ==> a(ts[i]) == b(ts[i])
    ensures Sum(ts, a) == Sum(ts, b)
  {
    if ts != [] {
      SumSame(ts[1..], a, b);
    }
  }

  lemma {:induction false} SumAtMost(ts: seq<Thread>, a: Thread -> nat, b: Thread -> nat)
    requires forall i :: 0 <= i < |ts| ==> a(ts[i]) <= b(ts[i])
    ensures Sum(ts, a) <= Sum(ts, b)
  {
    if ts != [] {
      SumAtMost(ts[1..], a, b);
    }
  }

  lemma PartAtMost(t: Thread, c: Check)
    ensures Done(c)(t) <= Whole(c)(t)
  {
    if t.Working? && t.at <= |t.batch| {
      assert t.batch == t.batch[..t.at] + t.batch[t.at..];
    }
  }

  /** At any time no check was evaluated more often than it was added. */
  lemma NoneTwice(t: Traced)
    requires Conserved(t)
    ensures t.executed <= multiset(t.s.added)
  {
    hide Inv, Sum, Whole, Done;
    forall c ensures t.executed[c] <= multiset(t.s.added)[c] {
      assert ConservedAt(t, c);
      forall j | 0 <= j < |t.s.threads| ensures Done(c)(t.s.threads[j]) <= Whole(c)(t.s.threads[j]) {
        PartAtMost(t.s.threads[j], c);
      }
      SumAtMost(t.s.threads, Done(c), Whole(c));
    }
  }

  /** When the master gets its answer, either all checks pass, and each was evaluated exactly as often as it
      was added; or one failed, and that one was evaluated. */
  lemma AnswerEvaluates(t: Traced, i: nat)
    requires Conserved(t) && Enabled(t.s, Run(i)) && Answers(t.s, Run(i))
    ensures Do(t.s, Run(i)).answers == t.s.answers + [(t.s.added, AllPass(t.s.added))]
    ensures AllPass(t.s.added) ==> t.executed == multiset(t.s.added)
    ensures !AllPass(t.s.added) ==> exists c :: c in t.executed && !c.passes
  {
    hide Inv, Sum, Whole, Done, AllPass, NoneFailed;
    OthersAreDone(t.s, i, Check(0, true));
    if AllPass(t.s.added) {
      forall c ensures t.executed[c] == multiset(t.s.added)[c] {
        assert ConservedAt(t, c);
        OthersAreDone(t.s, i, c);
      }
    }
  }

  lemma AnswerConserves(t: Traced, i: nat)
    requires Conserved(t) && Enabled(t.s, Run(i)) && Answers(t.s, Run(i))
    ensures Conserved(DoTraced(t, Run(i)))
  {
    hide Inv, Sum;
    StepKeepsInv(t.s, Run(i));
    ReturnLeavesClean(t.s, i);
    var u := Do(t.s, Run(i));
    NoneFailedMeans(u);
    forall c ensures ConservedAt(Traced(u, multiset{}, multiset{}), c) {
      forall j | 0 <= j < |u.threads| ensures Whole(c)(u.threads[j]) == Done(c)(u.threads[j]) == 0 {
        FreshBatch(u.threads[j], c);
      }
      SumNone(u.threads, Whole(c));
      SumNone(u.threads, Done(c));
    }
  }

  lemma StepSees(t: Traced, step: Step)
    requires Conserved(t) && Enabled(t.s, step) && !Answers(t.s, step)
    ensures FailureSeen(DoTraced(t, step))
  {
    hide Inv, ConservedAt;
    if step.Run? && InBatch(t.s.threads[step.i]) {
      EvaluateSees(t, step.i);
    } else {
      if step.Run? {
        SectionFailures(t.s, step.i);
      } else if step.CallWait? {
        SameFailures(t.s, Do(t.s, step), 0);
      } else {
        assert NoneFailed(Do(t.s, step)) == NoneFailed(t.s);
      }
      assert t.executed + Evaluated(t.s, step) == t.executed;
    }
  }

  lemma StepConserves(t: Traced, step: Step)
    requires Conserved(t) && Enabled(t.s, step)
    ensures Conserved(DoTraced(t, step))
  {
    hide Inv, ConservedAt, FailureSeen;
    StepKeepsInv(t.s, step);
    if Answers(t.s, step) {
      AnswerConserves(t, step.i);
    } else {
      StepSees(t, step);
      forall c ensures ConservedAt(DoTraced(t, step), c) {
        assert ConservedAt(t, c);
        match step
        case AddChecks(cs) => AddConserves(t, cs, c);
        case CallWait => WaitConserves(t, c);
        case Run(i) =>
          if InBatch(t.s.threads[i]) { EvaluateConserves(t, i, c); } else { SectionConserves(t, i, c); }
      }
    }
  }

  /** The steps can be taken one after the other. */
  ghost predicate AllEnabled(t: Traced, steps: seq<Step>)
    decreases |steps|
  {
    steps == [] || (Enabled(t.s, steps[0]) && AllEnabled(DoTraced(t, steps[0]), steps[1..]))
  }

  ghost function RunTraced(t: Traced, steps: seq<Step>): Traced
    requires AllEnabled(t, steps)
    decreases |steps|
  {
    if steps == [] then t else RunTraced(DoTraced(t, steps[0]), steps[1..])
  }

  /** In every interleaving, from the start on, no check is evaluated that was not added or more often than it
      was, and every answer is given after all checks were evaluated or one of them failed. */
  lemma {:induction false} RunConserves(t: Traced, steps: seq<Step>)
    requires Conserved(t) && AllEnabled(t, steps)
    ensures var u := RunTraced(t, steps); Conserved(u) && u.executed <= multiset(u.s.added)
    decreases |steps|
  {
    hide Conserved, DoTraced;
    if steps == [] {
      NoneTwice(t);
    } else {
      StepConserves(t, steps[0]);
      RunConserves(DoTraced(t, steps[0]), steps[1..]);
    }
  }
}
