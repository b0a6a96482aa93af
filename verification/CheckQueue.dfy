/** The shared fields of the check queue as an object, and the critical sections and local loop of
    its threads as methods, proved to do what the transition system's steps do. */
module CheckQueue {
  import opened CheckQueueProtocol

  class CheckQueue {
    var queue: seq<Check>
    var nIdle: int
    var nTotal: int
    var fAllOk: bool
    var nTodo: int
    const nBatchSize: nat

    constructor (batchSize: nat)
      ensures Abs() == Shared([], 0, 0, true, 0) && nBatchSize == batchSize
    {
      queue, nIdle, nTotal, fAllOk, nTodo := [], 0, 0, true, 0;
      nBatchSize := batchSize;
    }

    ghost function Abs(): Shared
      reads this
    {
      Shared(queue, nIdle, nTotal, fAllOk, nTodo)
    }

    /** Puts a batch of checks on the queue, one by one. */
    method Add(vChecks: seq<Check>)
      modifies this
      ensures Abs() == Enqueue(old(Abs()), vChecks)
    {
      if vChecks == [] { return; }
      for i := 0 to |vChecks|
        invariant queue == old(queue) + vChecks[..i]
        invariant nIdle == old(nIdle) && nTotal == old(nTotal) && fAllOk == old(fAllOk) && nTodo == old(nTodo)
      {
        queue := queue + [vChecks[i]];
      }
      assert vChecks[..|vChecks|] == vChecks;
      nTodo := nTodo + |vChecks|;
    }

    /** One visit of the loop's critical section, from wherever the thread comes to where it goes;
        `notifyMaster` says whether the master's condition variable is signalled. */
    method CriticalSection(fMaster: bool, entry: Entry) returns (out: Outcome, notifyMaster: bool)
      requires Arrive(Abs(), entry).nTotal + Arrive(Abs(), entry).nIdle + 1 > 0
      requires entry.Report? ==> entry.nNow > 0
      modifies this
      ensures (Abs(), out) == Proceed(Arrive(old(Abs()), entry), nBatchSize, fMaster)
      ensures notifyMaster <==> Signals(old(Abs()), entry, fMaster)
    {
      hide BatchSize, Reverse;
      notifyMaster := false;
      match entry {
        case First => nTotal := nTotal + 1;
        case Report(nNow, fOk) =>
          fAllOk := fAllOk && fOk;
          nTodo := nTodo - nNow;
          notifyMaster := nTodo == 0 && !fMaster;
        case Woken => nIdle := nIdle - 1;
      }
      if queue == [] {
        if fMaster && nTodo == 0 {
          nTotal := nTotal - 1;
          var fRet := fAllOk;
          fAllOk := true;
          out := Return(fRet);
        } else {
          nIdle := nIdle + 1;
          out := Block;
        }
      } else {
        var nNow := BatchSize(Shared(queue, nIdle, nTotal, fAllOk, nTodo), nBatchSize);
        BatchSizeBounds(Abs(), nBatchSize);
        var vChecks := PopBatch(nNow);
        out := Take(vChecks, fAllOk);
      }
    }

    /** Moves checks from the back of the queue into a batch. */
    method PopBatch(nNow: nat) returns (vChecks: seq<Check>)
      requires nNow <= |queue|
      modifies this`queue
      ensures queue == old(queue)[..|old(queue)| - nNow]
      ensures vChecks == Reverse(old(queue)[|old(queue)| - nNow..])
    {
      vChecks := [];
      ghost var all := queue;
      for i := 0 to nNow
        invariant queue == all[..|all| - i]
        invariant vChecks == Reverse(all[|all| - i..])
      {
        var last := |queue| - 1;
        ReverseMore(all, |all| - i);
        vChecks := vChecks + [queue[last]];
        queue := queue[..last];
      }
    }
  }

  lemma {:induction false} ReverseSnoc(x: Check, s: seq<Check>)
    ensures Reverse([x] + s) == Reverse(s) + [x]
  {
    var t := [x] + s;
    if s != [] {
      assert t[..|t| - 1] == [x] + s[..|s| - 1];
      ReverseSnoc(x, s[..|s| - 1]);
    } else {
      assert t == [x] && t[..0] == [];
    }
  }

  lemma ReverseMore(all: seq<Check>, k: nat)
    requires 0 < k <= |all|
    ensures Reverse(all[k - 1..]) == Reverse(all[k..]) + [all[k - 1]]
  {
    assert all[k - 1..] == [all[k - 1]] + all[k..];
    ReverseSnoc(all[k - 1], all[k..]);
  }

  /** Evaluates the rest of a batch outside the critical section, skipping once a check has failed. */
  function EvaluateAll(t: Thread): Thread
    requires t.Working? && t.at <= |t.batch|
    decreases |t.batch| - t.at
  {
    if InBatch(t) then EvaluateAll(Evaluate(t)) else t
  }

  /** The loop over a batch: its result is the flag it started with and all its checks. */
  method ExecuteBatch(vChecks: seq<Check>, ok: bool) returns (fOk: bool)
    ensures fOk <==> ok && AllPass(vChecks)
    ensures EvaluateAll(Working(vChecks, 0, ok)) == Working(vChecks, |vChecks|, fOk)
  {
    fOk := ok;
    for i := 0 to |vChecks|
      invariant fOk <==> ok && AllPass(vChecks[..i])
      invariant EvaluateAll(Working(vChecks, i, fOk)) == EvaluateAll(Working(vChecks, 0, ok))
    {
      assert vChecks[..i + 1] == vChecks[..i] + [vChecks[i]];
      AllPassConcat(vChecks[..i], [vChecks[i]]);
      if fOk {
        fOk := vChecks[i].passes;
      }
    }
    assert vChecks[..|vChecks|] == vChecks;
  }
}
