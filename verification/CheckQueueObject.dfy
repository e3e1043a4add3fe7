/** The verification queue as an object: its critical sections, each one step of the protocol. */
module CheckQueueObject {
  import opened CheckQueue

  /** How a thread comes to hold the mutex: on entering, woken from its wait, or with a batch gone through. */
  datatype Entry = First | Woken | Done(nNow: nat, fOk: bool)

  /** How it gives the mutex up: leaving with a verdict, waiting, or with a batch to go through. */
  datatype Outcome = Left(fRet: bool) | Waits | Batch(vChecks: seq<Check>, fOk: bool)

  class Queue {
    const nBatchSize: nat
    var queue: seq<Check>
    var nIdle: int
    var nTotal: int
    var fAllOk: bool
    var nTodo: int
    var fQuit: bool
    ghost var threads: seq<Thread>
    ghost var round: multiset<Check>
    ghost var finished: multiset<Check>

    ghost function Abstract(): State
      reads this
    {
      State(queue, nIdle, nTotal, fAllOk, nTodo, fQuit, threads, round, finished)
    }

    constructor (nBatchSize: nat, ghost workers: nat)
      ensures this.nBatchSize == nBatchSize && Abstract() == Initial(workers)
    {
      this.nBatchSize := nBatchSize;
      queue, nIdle, nTotal, fAllOk, nTodo, fQuit := [], 0, 0, true, 0, false;
      threads, round, finished := seq(1 + workers, _ => Out), multiset{}, multiset{};
    }

    /** Put checks on the queue. */
    method Add(vChecks: seq<Check>)
      requires |threads| > 0 && threads[0].Out?
      modifies this
      ensures Adds(old(Abstract()), Abstract(), vChecks)
    {
      for i := 0 to |vChecks|
        invariant Abstract() == old(Abstract()).(queue := old(queue) + vChecks[..i])
      {
        queue := queue + [vChecks[i]];
        assert vChecks[..i] + [vChecks[i]] == vChecks[..i + 1];
      }
      assert vChecks[..|vChecks|] == vChecks;
      nTodo := nTodo + |vChecks|;
      round := round + multiset(vChecks);
    }

    ghost predicate Matches(entry: Entry, t: Thread) {
      match entry
      case First => t.Out?
      case Woken => t.Idle?
      case Done(nNow, fOk) => t.Working? && t.done == |t.batch| == nNow && t.fOk == fOk
    }

    /** What a thread does with the mutex held: exactly one locked step of the protocol. */
    method Section(fMaster: bool, entry: Entry, ghost c: Config, ghost i: nat) returns (outcome: Outcome)
      requires c.nBatchSize == nBatchSize && i < |threads| && (fMaster <==> i == 0) && Matches(entry, threads[i])
      modifies this
      ensures Abstract() == Locked(c, old(Abstract()), i)
      ensures Stands(outcome, i, Arrive(old(Abstract()), i).fAllOk)
    {
      CleanUp(entry, i);
      outcome := Turn(fMaster, c, i);
    }

    /** What an outcome says about the thread that has it. */
    ghost predicate Stands(outcome: Outcome, i: nat, verdict: bool)
      reads this
    {
      i < |threads| &&
      match outcome
      case Left(fRet) => threads[i].Out? && fRet == verdict
      case Waits => threads[i].Idle?
      case Batch(vChecks, fOk) => threads[i] == Working(vChecks, 0, fOk)
    }

    /** Leave, wait, or take the next batch. */
    method Turn(fMaster: bool, ghost c: Config, ghost i: nat) returns (outcome: Outcome)
      requires c.nBatchSize == nBatchSize && i < |threads| && (fMaster <==> i == 0)
      modifies this
      ensures Abstract() == Proceed(c, old(Abstract()), i)
      ensures Stands(outcome, i, old(fAllOk))
    {
      if queue == [] {
        if (fMaster || fQuit) && nTodo == 0 {
          var fRet := Depart(fMaster, i);
          return Left(fRet);
        }
        nIdle := nIdle + 1;
        threads := threads[i := Idle];
        return Waits;
      }
      outcome := TakeBatch(c, i);
    }

    method Depart(fMaster: bool, ghost i: nat) returns (fRet: bool)
      requires i < |threads| && (fMaster <==> i == 0)
      modifies this
      ensures Abstract() == Leave(old(Abstract()), i) && fRet == old(fAllOk)
    {
      nTotal := nTotal - 1;
      fRet := fAllOk;
      threads := threads[i := Out];
      if fMaster {
        fAllOk := true;
        round, finished := multiset{}, multiset{};
      }
    }

    method TakeBatch(ghost c: Config, ghost i: nat) returns (outcome: Outcome)
      requires c.nBatchSize == nBatchSize && i < |threads| && queue != []
      modifies this
      ensures Abstract() == Proceed(c, old(Abstract()), i)
      ensures outcome.Batch? && Stands(outcome, i, old(fAllOk))
    {
      BatchFits(nBatchSize, |queue|, nTotal, nIdle);
      var nNow := BatchSize(nBatchSize, |queue|, nTotal, nIdle);
      var vChecks := Take(nNow);
      threads := threads[i := Working(vChecks, 0, fAllOk)];
      outcome := Batch(vChecks, fAllOk);
    }

    /** Report the batch of the previous turn, or register. */
    method CleanUp(entry: Entry, ghost i: nat)
      requires i < |threads| && Matches(entry, threads[i])
      modifies this
      ensures Abstract() == Arrive(old(Abstract()), i)
    {
      match entry
      case First =>
        nTotal := nTotal + 1;
      case Woken =>
        nIdle := nIdle - 1;
      case Done(nNow, fOk) =>
        Report(nNow, fOk, i);
    }

    method Report(nNow: nat, fOk: bool, ghost i: nat)
      requires i < |threads| && Matches(Done(nNow, fOk), threads[i])
      modifies this
      ensures Abstract() == Arrive(old(Abstract()), i)
    {
      fAllOk := fAllOk && fOk;
      nTodo := nTodo - nNow;
      finished := finished + multiset(threads[i].batch);
    }

    /** Move checks from the back of the queue to a batch. */
    method Take(nNow: nat) returns (vChecks: seq<Check>)
      requires nNow <= |queue|
      modifies `queue
      ensures vChecks == TakeBack(old(queue), nNow) && queue == old(queue)[..|old(queue)| - nNow]
    {
      vChecks := [];
      for i := 0 to nNow
        invariant |vChecks| == i && queue == old(queue)[..|old(queue)| - i]
        invariant forall j :: 0 <= j < i ==> vChecks[j] == old(queue)[|old(queue)| - 1 - j]
      {
        vChecks := vChecks + [queue[|queue| - 1]];
        queue := queue[..|queue| - 1];
      }
    }
  }

  /** Go through a batch outside the mutex: stop looking once a check has failed. */
  method Execute(c: Config, vChecks: seq<Check>, fOk0: bool) returns (fOk: bool)
    ensures fOk <==> fOk0 && forall j :: 0 <= j < |vChecks| ==> c.passes(vChecks[j])
  {
    fOk := fOk0;
    for i := 0 to |vChecks|
      invariant fOk <==> fOk0 && forall j :: 0 <= j < i ==> c.passes(vChecks[j])
    {
      if fOk {
        fOk := c.passes(vChecks[i]);
      }
    }
  }
}
