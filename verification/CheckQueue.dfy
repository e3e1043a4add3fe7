/** The verification queue: one master and any number of workers, interleaved at the points where
    they take the mutex. Between those points a thread touches only its own batch. */
module CheckQueue {

  type Check = nat

  /** The verdict of each check, and the largest batch. */
  datatype Config = Config(passes: Check -> bool, nBatchSize: nat)

  /** A thread is outside Loop, waiting for its condition variable, or working on its own batch,
      of which the first done checks have been gone through. */
  datatype Thread = Out | Idle | Working(batch: seq<Check>, done: nat, fOk: bool)

  /** threads[0] is the master. round and finished are what was added since the last Wait returned
      and what has been reported back; the protocol itself never looks at them. */
  datatype State = State(queue: seq<Check>, nIdle: int, nTotal: int, fAllOk: bool, nTodo: int, fQuit: bool,
                         threads: seq<Thread>, round: multiset<Check>, finished: multiset<Check>)

  function Initial(workers: nat): State {
    State([], 0, 0, true, 0, false, seq(1 + workers, _ => Out), multiset{}, multiset{})
  }

  // ---------------------------------------------------------------- steps

  /** How much to take: smaller batches as the queue runs out, but at least one. */
  function BatchSize(nBatchSize: nat, queued: nat, nTotal: int, nIdle: int): int {
    var share := if nTotal + nIdle + 1 > 0 then queued / (nTotal + nIdle + 1) else 0;
    var n := if share < nBatchSize then share else nBatchSize;
    if n < 1 then 1 else n
  }

  lemma BatchFits(nBatchSize: nat, queued: nat, nTotal: int, nIdle: int)
    requires queued > 0
    ensures 1 <= BatchSize(nBatchSize, queued, nTotal, nIdle) <= queued
    ensures BatchSize(nBatchSize, queued, nTotal, nIdle) <= if nBatchSize > 1 then nBatchSize else 1
  {
    if nTotal + nIdle + 1 > 0 {
      DivBound(queued, nTotal + nIdle + 1);
    }
  }

  /** A batch is the largest that keeps to the maximum and to the thread's share, or a single check. */
  lemma BatchShare(nBatchSize: nat, queued: nat, nTotal: int, nIdle: int)
    requires nTotal + nIdle + 1 > 0
    ensures var n, sharers := BatchSize(nBatchSize, queued, nTotal, nIdle), nTotal + nIdle + 1;
            (n > 1 ==> n * sharers <= queued) && (n < nBatchSize ==> (n + 1) * sharers > queued)
  {
    var n, d := BatchSize(nBatchSize, queued, nTotal, nIdle), nTotal + nIdle + 1;
    var share := queued / d;
    Quotient(queued, d);
    if n > 1 {
      TimesMore(n, share, d);
    }
    if n < nBatchSize {
      TimesMore(share + 1, n + 1, d);
    }
  }

  lemma Quotient(a: nat, d: nat)
    requires d > 0
    ensures a / d * d <= a < (a / d + 1) * d
  {
    var q, r := a / d, a % d;
    assert a == d * q + r;
    assert (q + 1) * d == d * q + d;
  }

  lemma {:induction false} TimesMore(a: nat, b: nat, d: nat)
    requires a <= b
    ensures a * d <= b * d
  {
    if a < b {
      TimesMore(a, b - 1, d);
      assert b * d == (b - 1) * d + d;
    }
  }

  lemma DivBound(a: nat, d: int)
    requires d > 0
    ensures a / d <= a
  {
    var q, r := a / d, a % d;
    assert a == d * q + r;
    AtLeast(q, d);
  }

  lemma {:induction false} AtLeast(q: nat, d: int)
    requires d > 0
    ensures d * q >= q
  {
    if q > 0 {
      AtLeast(q - 1, d);
      assert d * q == d * (q - 1) + d;
    }
  }

  /** The last n of the queue, last first. */
  function TakeBack(queue: seq<Check>, n: nat): (batch: seq<Check>)
    requires n <= |queue|
    ensures |batch| == n
  {
    seq(n, j requires 0 <= j < n => queue[|queue| - 1 - j])
  }

  /** Taking the mutex: report the previous batch, or register on the first time, or stop waiting. */
  ghost function Arrive(s: State, i: nat): State
    requires i < |s.threads|
  {
    match s.threads[i]
    case Out => s.(nTotal := s.nTotal + 1)
    case Idle => s.(nIdle := s.nIdle - 1)
    case Working(batch, _, fOk) =>
      s.(fAllOk := s.fAllOk && fOk, nTodo := s.nTodo - |batch|, finished := s.finished + multiset(batch))
  }

  /** The master takes the verdict with it and resets it for the next round. */
  ghost function Leave(s: State, i: nat): State
    requires i < |s.threads|
  {
    var left := s.(nTotal := s.nTotal - 1, threads := s.threads[i := Out]);
    if i == 0 then left.(fAllOk := true, round := multiset{}, finished := multiset{}) else left
  }

  ghost function Rest(s: State, i: nat): State
    requires i < |s.threads|
  {
    s.(nIdle := s.nIdle + 1, threads := s.threads[i := Idle])
  }

  ghost function Grab(s: State, i: nat, n: nat): State
    requires i < |s.threads| && n <= |s.queue|
  {
    s.(queue := s.queue[..|s.queue| - n], threads := s.threads[i := Working(TakeBack(s.queue, n), 0, s.fAllOk)])
  }

  ghost predicate MayLeave(s: State, i: nat) {
    s.queue == [] && s.nTodo == 0 && (i == 0 || s.fQuit)
  }

  /** With the mutex held: leave, wait, or take the next batch. */
  ghost function Proceed(c: Config, s: State, i: nat): State
    requires i < |s.threads|
  {
    if MayLeave(s, i) then Leave(s, i)
    else if s.queue == [] then Rest(s, i)
    else
      BatchFits(c.nBatchSize, |s.queue|, s.nTotal, s.nIdle);
      Grab(s, i, BatchSize(c.nBatchSize, |s.queue|, s.nTotal, s.nIdle))
  }

  ghost function Locked(c: Config, s: State, i: nat): State
    requires i < |s.threads|
  {
    Proceed(c, Arrive(s, i), i)
  }

  /** A thread may take the mutex when it has gone through its batch; a waiting thread at any time. */
  ghost predicate MayLock(s: State, i: nat) {
    i < |s.threads| && (s.threads[i].Working? ==> s.threads[i].done == |s.threads[i].batch|)
  }

  /** One check of a thread's own batch, skipped once the verdict is known. */
  ghost predicate Executes(c: Config, s: State, s': State, i: nat) {
    && i < |s.threads| && s.threads[i].Working? && s.threads[i].done < |s.threads[i].batch|
    && var t := s.threads[i];
       s' == s.(threads := s.threads[i := t.(done := t.done + 1, fOk := t.fOk && c.passes(t.batch[t.done]))])
  }

  /** The master adds checks while it is not waiting itself. */
  ghost predicate Adds(s: State, s': State, checks: seq<Check>) {
    && |s.threads| > 0 && s.threads[0].Out?
    && s' == s.(queue := s.queue + checks, nTodo := s.nTodo + |checks|, round := s.round + multiset(checks))
  }

  ghost predicate Quits(s: State, s': State) { s' == s.(fQuit := true) }

  ghost predicate Next(c: Config, s: State, s': State) {
    || (exists i :: MayLock(s, i) && s' == Locked(c, s, i))
    || (exists i :: Executes(c, s, s', i))
    || (exists checks :: Adds(s, s', checks))
    || Quits(s, s')
  }

  // ---------------------------------------------------------------- sums over the threads

  function Sum(f: Thread -> int, threads: seq<Thread>): int {
    if threads == [] then 0 else Sum(f, threads[..|threads| - 1]) + f(threads[|threads| - 1])
  }

  lemma {:induction false} SumUpdate(f: Thread -> int, threads: seq<Thread>, i: nat, t: Thread)
    requires i < |threads|
    ensures Sum(f, threads[i := t]) == Sum(f, threads) - f(threads[i]) + f(t)
  {
    var n := |threads| - 1;
    if i < n {
      SumUpdate(f, threads[..n], i, t);
      assert threads[i := t][..n] == threads[..n][i := t];
    } else {
      assert threads[i := t][..n] == threads[..n];
    }
  }

  lemma {:induction false} SumZero(f: Thread -> int, threads: seq<Thread>)
    requires forall t :: f(t) >= 0
    ensures Sum(f, threads) >= 0
    ensures Sum(f, threads) == 0 ==> forall i :: 0 <= i < |threads| ==> f(threads[i]) == 0
  {
    if threads != [] {
      SumZero(f, threads[..|threads| - 1]);
    }
  }

  function Own(t: Thread): multiset<Check> { if t.Working? then multiset(t.batch) else multiset{} }

  /** How often a thread holds check x. */
  function Carries(x: Check): Thread -> int { (t: Thread) => Own(t)[x] }

  function InFlight(t: Thread): int { if t.Working? then |t.batch| else 0 }
  function Waiting(t: Thread): int { if t.Idle? then 1 else 0 }
  function Inside(t: Thread): int { if t.Out? then 0 else 1 }

  // ---------------------------------------------------------------- the invariant

  ghost predicate AllPass(c: Config, checks: multiset<Check>) {
    forall x :: x in checks ==> c.passes(x)
  }

  /** A batch is never empty; while nothing failed in it or before, its verdict is true. */
  ghost predicate BatchOk(c: Config, t: Thread, finished: multiset<Check>) {
    t.Working? ==>
      && |t.batch| > 0 && t.done <= |t.batch|
      && (t.fOk ==> forall j :: 0 <= j < t.done ==> c.passes(t.batch[j]))
      && (!t.fOk ==> !AllPass(c, finished) || exists j :: 0 <= j < t.done && !c.passes(t.batch[j]))
  }

  ghost predicate CountsOk(s: State) {
    && s.nTodo == |s.queue| + Sum(InFlight, s.threads)
    && s.nIdle == Sum(Waiting, s.threads)
    && s.nTotal == Sum(Inside, s.threads)
  }

  ghost predicate ChecksOk(s: State) {
    forall x :: CheckOk(s, x)
  }

  ghost predicate CheckOk(s: State, x: Check) {
    s.round[x] == multiset(s.queue)[x] + Sum(Carries(x), s.threads) + s.finished[x]
  }

  ghost predicate VerdictsOk(c: Config, s: State) {
    && (s.fAllOk <==> AllPass(c, s.finished))
    && forall i :: 0 <= i < |s.threads| ==> BatchOk(c, s.threads[i], s.finished)
  }

  ghost predicate Inv(c: Config, s: State) {
    |s.threads| > 0 && CountsOk(s) && ChecksOk(s) && VerdictsOk(c, s)
  }

  // ---------------------------------------------------------------- every step keeps it

  lemma InitialOk(c: Config, workers: nat)
    ensures Inv(c, Initial(workers))
  {
    AllOut(workers + 1);
    assert Initial(workers).threads == seq(workers + 1, _ => Out);
  }

  lemma {:induction false} AllOut(n: nat)
    ensures var ts := seq(n, _ => Out); Sum(InFlight, ts) == Sum(Waiting, ts) == Sum(Inside, ts) == 0 && forall x :: Sum(Carries(x), ts) == 0
  {
    if n > 0 {
      AllOut(n - 1);
      assert seq(n, _ => Out)[..n - 1] == seq(n - 1, _ => Out);
    }
  }

  /** The state between Arrive and Proceed is consistent for the threads as if i were outside. */
  ghost function Without(s: State, i: nat): seq<Thread>
    requires i < |s.threads|
  {
    s.threads[i := Out]
  }

  ghost predicate ArrivedCounts(s: State, i: nat) {
    && i < |s.threads|
    && s.nTodo == |s.queue| + Sum(InFlight, Without(s, i))
    && s.nIdle == Sum(Waiting, Without(s, i))
    && s.nTotal == Sum(Inside, Without(s, i)) + 1
  }

  lemma ArriveCounts(s: State, i: nat)
    requires CountsOk(s) && MayLock(s, i)
    ensures ArrivedCounts(Arrive(s, i), i)
  {
    SumUpdate(InFlight, s.threads, i, Out);
    SumUpdate(Waiting, s.threads, i, Out);
    SumUpdate(Inside, s.threads, i, Out);
  }

  lemma ProceedCounts(c: Config, s: State, i: nat)
    requires ArrivedCounts(s, i)
    ensures CountsOk(Proceed(c, s, i))
  {
    var t := Proceed(c, s, i).threads[i];
    assert s.threads[i := t] == Without(s, i)[i := t];
    SumUpdate(InFlight, Without(s, i), i, t);
    SumUpdate(Waiting, Without(s, i), i, t);
    SumUpdate(Inside, Without(s, i), i, t);
    if s.queue != [] {
      BatchFits(c.nBatchSize, |s.queue|, s.nTotal, s.nIdle);
    }
  }

  ghost predicate ArrivedChecks(s: State, i: nat) {
    i < |s.threads| && forall x :: ArrivedCheck(s, i, x)
  }

  ghost predicate ArrivedCheck(s: State, i: nat, x: Check)
    requires i < |s.threads|
  {
    s.round[x] == multiset(s.queue)[x] + Sum(Carries(x), Without(s, i)) + s.finished[x]
  }

  lemma ArriveChecks(s: State, i: nat)
    requires ChecksOk(s) && MayLock(s, i)
    ensures ArrivedChecks(Arrive(s, i), i)
  {
    forall x ensures ArrivedCheck(Arrive(s, i), i, x) {
      assert CheckOk(s, x);
      SumUpdate(Carries(x), s.threads, i, Out);
    }
  }

  lemma {:induction false} TakeBackSplit(queue: seq<Check>, n: nat, x: Check)
    requires n <= |queue|
    ensures multiset(queue)[x] == multiset(queue[..|queue| - n])[x] + multiset(TakeBack(queue, n))[x]
  {
    if n == 0 {
      assert queue[..|queue|] == queue && TakeBack(queue, 0) == [];
    } else {
      var rest, last := queue[..|queue| - 1], queue[|queue| - 1];
      assert queue == rest + [last];
      TakeBackSplit(rest, n - 1, x);
      assert rest[..|rest| - (n - 1)] == queue[..|queue| - n];
      Occurrences(rest, [last], x);
      Occurrences([last], TakeBack(rest, n - 1), x);
      assert TakeBack(queue, n) == [last] + TakeBack(rest, n - 1);
    }
  }

  lemma Occurrences(a: seq<Check>, b: seq<Check>, x: Check)
    ensures multiset(a + b)[x] == multiset(a)[x] + multiset(b)[x]
  {
    assert multiset(a + b) == multiset(a) + multiset(b);
  }

  /** Nothing is in flight when nothing is to do. */
  lemma {:induction false} NothingHeld(threads: seq<Thread>, x: Check)
    requires forall i :: 0 <= i < |threads| ==> InFlight(threads[i]) == 0
    ensures Sum(Carries(x), threads) == 0
  {
    if threads != [] {
      NothingHeld(threads[..|threads| - 1], x);
    }
  }

  lemma ProceedChecks(c: Config, s: State, i: nat)
    requires ArrivedChecks(s, i) && ArrivedCounts(s, i)
    ensures ChecksOk(Proceed(c, s, i))
  {
    forall x ensures CheckOk(Proceed(c, s, i), x) {
      ProceedCheck(c, s, i, x);
    }
  }

  lemma ProceedCheck(c: Config, s: State, i: nat, x: Check)
    requires ArrivedCounts(s, i) && ArrivedCheck(s, i, x)
    ensures CheckOk(Proceed(c, s, i), x)
  {
    if MayLeave(s, i) {
      SumZero(InFlight, Without(s, i));
      NothingHeld(Without(s, i), x);
    } else if s.queue == [] {
      SetCarried(s, i, Idle, x);
    } else {
      BatchFits(c.nBatchSize, |s.queue|, s.nTotal, s.nIdle);
      GrabCheck(s, i, BatchSize(c.nBatchSize, |s.queue|, s.nTotal, s.nIdle), x);
    }
  }

  lemma SetCarried(s: State, i: nat, t: Thread, x: Check)
    requires i < |s.threads|
    ensures Sum(Carries(x), s.threads[i := t]) == Sum(Carries(x), Without(s, i)) + Own(t)[x]
  {
    assert s.threads[i := t] == Without(s, i)[i := t];
    SumUpdate(Carries(x), Without(s, i), i, t);
  }

  lemma GrabCheck(s: State, i: nat, n: nat, x: Check)
    requires i < |s.threads| && n <= |s.queue| && ArrivedCheck(s, i, x)
    ensures CheckOk(Grab(s, i, n), x)
  {
    var queue, batch := s.queue[..|s.queue| - n], TakeBack(s.queue, n);
    TakeBackSplit(s.queue, n, x);
    MovedCheck(s, i, queue, batch, x);
  }

  lemma MovedCheck(s: State, i: nat, queue: seq<Check>, batch: seq<Check>, x: Check)
    requires i < |s.threads| && ArrivedCheck(s, i, x)
    requires multiset(s.queue)[x] == multiset(queue)[x] + multiset(batch)[x]
    ensures CheckOk(s.(queue := queue, threads := s.threads[i := Working(batch, 0, s.fAllOk)]), x)
  {
    SetCarried(s, i, Working(batch, 0, s.fAllOk), x);
  }

  /** The verdicts of all threads but i. */
  ghost predicate ArrivedVerdicts(c: Config, s: State, i: nat) {
    && (s.fAllOk <==> AllPass(c, s.finished))
    && forall j :: 0 <= j < |s.threads| && j != i ==> BatchOk(c, s.threads[j], s.finished)
  }

  lemma ArriveVerdicts(c: Config, s: State, i: nat)
    requires VerdictsOk(c, s) && MayLock(s, i)
    ensures ArrivedVerdicts(c, Arrive(s, i), i)
  {
    var s', t := Arrive(s, i), s.threads[i];
    if t.Working? {
      assert BatchOk(c, t, s.finished);
      assert AllPass(c, s'.finished) <==> AllPass(c, s.finished) && AllPass(c, multiset(t.batch));
      assert AllPass(c, multiset(t.batch)) <==> forall j :: 0 <= j < |t.batch| ==> c.passes(t.batch[j]);
      forall j | 0 <= j < |s.threads| && j != i ensures BatchOk(c, s'.threads[j], s'.finished) {
        assert BatchOk(c, s.threads[j], s.finished);
      }
    }
  }

  lemma ProceedVerdicts(c: Config, s: State, i: nat)
    requires ArrivedVerdicts(c, s, i) && ArrivedCounts(s, i)
    ensures VerdictsOk(c, Proceed(c, s, i))
  {
    var s' := Proceed(c, s, i);
    if s.queue != [] {
      BatchFits(c.nBatchSize, |s.queue|, s.nTotal, s.nIdle);
    } else if s.nTodo == 0 {
      SumZero(InFlight, Without(s, i));
      forall j | 0 <= j < |s.threads| ensures BatchOk(c, s'.threads[j], s'.finished) {
        if j != i {
          assert InFlight(Without(s, i)[j]) == 0;
          assert BatchOk(c, s.threads[j], s.finished);
        }
      }
    }
  }

  lemma LockedOk(c: Config, s: State, i: nat)
    requires Inv(c, s) && MayLock(s, i)
    ensures Inv(c, Locked(c, s, i))
  {
    ArriveCounts(s, i);
    ArriveChecks(s, i);
    ArriveVerdicts(c, s, i);
    var s1 := Arrive(s, i);
    ProceedCounts(c, s1, i);
    ProceedChecks(c, s1, i);
    ProceedVerdicts(c, s1, i);
  }

  lemma ExecutesOk(c: Config, s: State, s': State, i: nat)
    requires Inv(c, s) && Executes(c, s, s', i)
    ensures Inv(c, s')
  {
    var t, t' := s.threads[i], s'.threads[i];
    SumUpdate(InFlight, s.threads, i, t');
    SumUpdate(Waiting, s.threads, i, t');
    SumUpdate(Inside, s.threads, i, t');
    forall x ensures CheckOk(s', x) {
      assert CheckOk(s, x);
      SumUpdate(Carries(x), s.threads, i, t');
    }
    assert BatchOk(c, t, s.finished);
    forall j | 0 <= j < |s'.threads| ensures BatchOk(c, s'.threads[j], s'.finished) {
      if j == i {
        ExecutedBatch(c, t, s.finished);
      } else {
        assert BatchOk(c, s.threads[j], s.finished);
      }
    }
  }

  lemma ExecutedBatch(c: Config, t: Thread, finished: multiset<Check>)
    requires t.Working? && t.done < |t.batch| && BatchOk(c, t, finished)
    ensures BatchOk(c, t.(done := t.done + 1, fOk := t.fOk && c.passes(t.batch[t.done])), finished)
  {
    var t' := t.(done := t.done + 1, fOk := t.fOk && c.passes(t.batch[t.done]));
    if !t.fOk && AllPass(c, finished) {
      var j :| 0 <= j < t.done && !c.passes(t.batch[j]);
      assert !c.passes(t'.batch[j]);
    } else if t.fOk && !t'.fOk {
      assert !c.passes(t'.batch[t.done]);
    }
  }

  lemma AddsOk(c: Config, s: State, s': State, checks: seq<Check>)
    requires Inv(c, s) && Adds(s, s', checks)
    ensures Inv(c, s')
  {
    forall x ensures CheckOk(s', x) {
      assert CheckOk(s, x);
    }
    forall j | 0 <= j < |s'.threads| ensures BatchOk(c, s'.threads[j], s'.finished) {
      assert BatchOk(c, s.threads[j], s.finished);
    }
  }

  lemma NextOk(c: Config, s: State, s': State)
    requires Inv(c, s) && Next(c, s, s')
    ensures Inv(c, s')
  {
    if i :| MayLock(s, i) && s' == Locked(c, s, i) {
      LockedOk(c, s, i);
    } else if i :| Executes(c, s, s', i) {
      ExecutesOk(c, s, s', i);
    } else if checks :| Adds(s, s', checks) {
      AddsOk(c, s, s', checks);
    } else {
      forall x ensures CheckOk(s', x) {
        assert CheckOk(s, x);
      }
      forall j | 0 <= j < |s'.threads| ensures BatchOk(c, s'.threads[j], s'.finished) {
        assert BatchOk(c, s.threads[j], s.finished);
      }
    }
  }

  // ---------------------------------------------------------------- runs

  /** Every state of a run from the initial one. */
  ghost predicate Run(c: Config, workers: nat, trace: seq<State>) {
    && |trace| > 0 && trace[0] == Initial(workers)
    && forall k :: 0 <= k < |trace| - 1 ==> Next(c, trace[k], trace[k + 1])
  }

  lemma {:induction false} RunOk(c: Config, workers: nat, trace: seq<State>)
    requires Run(c, workers, trace)
    ensures forall k :: 0 <= k < |trace| ==> Inv(c, trace[k])
  {
    var n := |trace| - 1;
    if n == 0 {
      InitialOk(c, workers);
    } else {
      RunOk(c, workers, trace[..n]);
      assert Next(c, trace[n - 1], trace[n]);
      NextOk(c, trace[n - 1], trace[n]);
    }
  }

  /** The step by which Wait returns the verdict of the round to the master. */
  ghost predicate WaitReturns(c: Config, s: State, s': State, verdict: bool) {
    && MayLock(s, 0) && s' == Locked(c, s, 0)
    && MayLeave(Arrive(s, 0), 0) && verdict == Arrive(s, 0).fAllOk
  }

  /** What the control object asserts of a queue it is given. */
  ghost predicate Unused(s: State) { s.nTotal == s.nIdle && s.nTodo == 0 && s.fAllOk }

  /** In every run, Wait returns true exactly when every check added in the round passes; by then
      each has been taken once and reported, and the queue is as unused as a new one. */
  lemma WaitVerdict(c: Config, workers: nat, trace: seq<State>, k: nat, s': State, verdict: bool)
    requires Run(c, workers, trace) && k < |trace| && WaitReturns(c, trace[k], s', verdict)
    ensures verdict <==> AllPass(c, trace[k].round)
    ensures forall x :: Arrive(trace[k], 0).finished[x] == trace[k].round[x]
    ensures Unused(s') && Inv(c, s')
  {
    RunOk(c, workers, trace);
    var s := trace[k];
    var s1 := Arrive(s, 0);
    ArriveCounts(s, 0);
    ArriveChecks(s, 0);
    ArriveVerdicts(c, s, 0);
    SumZero(InFlight, Without(s1, 0));
    forall x ensures s1.finished[x] == s.round[x] {
      assert ArrivedCheck(s1, 0, x);
      NothingHeld(Without(s1, 0), x);
    }
    assert forall x :: x in s1.finished <==> x in s.round;
    LockedOk(c, s, 0);
    OnlyWaiting(s'.threads);
  }

  /** Between rounds the queue stays as unused as a new one, whatever the workers do meanwhile. */
  lemma UnusedBetween(c: Config, workers: nat, trace: seq<State>, k: nat)
    requires Run(c, workers, trace) && k < |trace| && trace[k].round == multiset{}
    ensures Unused(trace[k])
  {
    RunOk(c, workers, trace);
    NothingLeft(c, trace[k]);
  }

  lemma NothingLeft(c: Config, s: State)
    requires Inv(c, s) && s.round == multiset{}
    ensures Unused(s)
  {
    forall x ensures multiset(s.queue)[x] == 0 && Sum(Carries(x), s.threads) == 0 && s.finished[x] == 0 {
      assert CheckOk(s, x);
      SumZero(Carries(x), s.threads);
    }
    forall i | 0 <= i < |s.threads| ensures !s.threads[i].Working? {
      NotWorking(c, s, i);
    }
    NoneQueued(s.queue);
    assert forall x :: x !in s.finished;
    SumAllZero(s.threads);
    OnlyWaiting(s.threads);
  }

  lemma NoneQueued(queue: seq<Check>)
    ensures (forall x :: multiset(queue)[x] == 0) ==> queue == []
  {
    if queue != [] {
      assert queue[0] in multiset(queue);
    }
  }

  lemma NotWorking(c: Config, s: State, i: nat)
    requires VerdictsOk(c, s) && i < |s.threads| && forall x :: Sum(Carries(x), s.threads) == 0
    ensures !s.threads[i].Working?
  {
    if s.threads[i].Working? {
      assert BatchOk(c, s.threads[i], s.finished);
      var x := s.threads[i].batch[0];
      assert x in multiset(s.threads[i].batch);
      SumZero(Carries(x), s.threads);
    }
  }

  /** When nothing is in flight, whoever is inside is waiting. */
  lemma {:induction false} OnlyWaiting(threads: seq<Thread>)
    ensures (forall i :: 0 <= i < |threads| ==> !threads[i].Working?) ==> Sum(Inside, threads) == Sum(Waiting, threads)
  {
    if threads != [] {
      var rest := threads[..|threads| - 1];
      OnlyWaiting(rest);
      if forall i :: 0 <= i < |threads| ==> !threads[i].Working? {
        assert forall i :: 0 <= i < |rest| ==> rest[i] == threads[i];
      }
    }
  }

  // ---------------------------------------------------------------- progress

  function Load(t: Thread): int { if t.Working? then 2 * (|t.batch| - t.done) + 1 else 0 }

  /** The work that is left: every step but a fruitless awakening and adding makes it smaller. */
  ghost function Left(s: State): int { 4 * |s.queue| + Sum(Load, s.threads) }

  lemma ExecutesProgress(c: Config, s: State, s': State, i: nat)
    requires Executes(c, s, s', i)
    ensures Left(s') < Left(s)
  {
    SumUpdate(Load, s.threads, i, s'.threads[i]);
  }

  lemma LockedProgress(c: Config, s: State, i: nat)
    requires MayLock(s, i)
    requires s.threads[i].Working? || s.queue != []
    ensures Left(Locked(c, s, i)) < Left(s)
  {
    var s1, s' := Arrive(s, i), Locked(c, s, i);
    SumUpdate(Load, s.threads, i, s'.threads[i]);
    assert s'.threads == s.threads[i := s'.threads[i]];
    if s1.queue != [] {
      BatchFits(c.nBatchSize, |s1.queue|, s1.nTotal, s1.nIdle);
    }
  }

  /** As long as the master waits and cannot return, some thread has useful work to do, so Wait is
      never stuck. */
  lemma NeverStuck(c: Config, s: State)
    requires Inv(c, s) && s.threads[0].Idle? && !MayLeave(Arrive(s, 0), 0)
    ensures || (exists i, s' :: Executes(c, s, s', i) && Left(s') < Left(s))
            || (exists i :: MayLock(s, i) && Left(Locked(c, s, i)) < Left(s))
  {
    if s.queue != [] {
      LockedProgress(c, s, 0);
    } else {
      SumZero(InFlight, s.threads);
      if i :| 0 <= i < |s.threads| && InFlight(s.threads[i]) != 0 {
        var t := s.threads[i];
        assert BatchOk(c, t, s.finished);
        if t.done < |t.batch| {
          var s' := s.(threads := s.threads[i := t.(done := t.done + 1, fOk := t.fOk && c.passes(t.batch[t.done]))]);
          assert Executes(c, s, s', i);
          ExecutesProgress(c, s, s', i);
        } else {
          LockedProgress(c, s, i);
        }
      } else {
        SumAllZero(s.threads);
      }
    }
  }

  lemma {:induction false} SumAllZero(threads: seq<Thread>)
    requires forall i :: 0 <= i < |threads| ==> InFlight(threads[i]) == 0
    ensures Sum(InFlight, threads) == 0
  {
    if threads != [] {
      SumAllZero(threads[..|threads| - 1]);
    }
  }

  /** A step of any thread, not of the master adding. */
  ghost predicate Quiet(c: Config, s: State, s': State) {
    || (exists i :: MayLock(s, i) && s' == Locked(c, s, i))
    || (exists i :: Executes(c, s, s', i))
    || Quits(s, s')
  }

  lemma LockedKeeps(c: Config, s: State, i: nat)
    requires MayLock(s, i)
    ensures Left(Locked(c, s, i)) <= Left(s)
  {
    if s.threads[i].Working? || s.queue != [] {
      LockedProgress(c, s, i);
    } else {
      var s' := Locked(c, s, i);
      SumUpdate(Load, s.threads, i, s'.threads[i]);
      assert s'.threads == s.threads[i := s'.threads[i]];
    }
  }

  lemma QuietKeeps(c: Config, s: State, s': State)
    requires Quiet(c, s, s')
    ensures Left(s') <= Left(s)
  {
    if i :| MayLock(s, i) && s' == Locked(c, s, i) {
      LockedKeeps(c, s, i);
    } else if i :| Executes(c, s, s', i) {
      ExecutesProgress(c, s, s', i);
    }
  }

  /** Step k of a trace is quiet. */
  ghost predicate QuietAt(c: Config, trace: seq<State>, k: nat) {
    0 < k < |trace| && Quiet(c, trace[k - 1], trace[k])
  }

  /** The number of steps up to k that got work done. */
  ghost function Useful(trace: seq<State>, k: nat): nat
    requires k < |trace|
  {
    if k == 0 then 0 else Useful(trace, k - 1) + if Left(trace[k]) < Left(trace[k - 1]) then 1 else 0
  }

  /** While nothing is added, the useful steps are bounded by the work there was. */
  lemma {:induction false} WorkEnds(c: Config, trace: seq<State>, k: nat)
    requires k < |trace| && Inv(c, trace[0]) && forall j :: 0 < j <= k ==> QuietAt(c, trace, j)
    ensures Inv(c, trace[k]) && 0 <= Left(trace[k]) <= Left(trace[0]) - Useful(trace, k)
  {
    if k > 0 {
      WorkEnds(c, trace, k - 1);
      assert QuietAt(c, trace, k);
      QuietKeeps(c, trace[k - 1], trace[k]);
      NextOk(c, trace[k - 1], trace[k]);
    }
    LeftNatural(c, trace[k]);
  }

  lemma LeftNatural(c: Config, s: State)
    requires Inv(c, s)
    ensures Left(s) >= 0
  {
    forall i | 0 <= i < |s.threads| ensures Load(s.threads[i]) >= 0 {
      assert BatchOk(c, s.threads[i], s.finished);
    }
    LoadNatural(s.threads);
  }

  lemma {:induction false} LoadNatural(threads: seq<Thread>)
    requires forall i :: 0 <= i < |threads| ==> Load(threads[i]) >= 0
    ensures Sum(Load, threads) >= 0
  {
    if threads != [] {
      LoadNatural(threads[..|threads| - 1]);
    }
  }

  // ---------------------------------------------------------------- waiting ends

  /** Thread i does something: it goes through a check or takes the mutex. */
  ghost predicate Acts(c: Config, s: State, s': State, i: nat) {
    (MayLock(s, i) && s' == Locked(c, s, i)) || Executes(c, s, s', i)
  }

  ghost predicate StepAt(c: Config, f: nat -> State, k: nat) {
    Next(c, f(k), f(k + 1))
  }

  /** At j, not before k, thread i acts or is outside. */
  ghost predicate TurnAt(c: Config, f: nat -> State, i: nat, k: nat, j: nat) {
    k <= j && (i < |f(j).threads| ==> f(j).threads[i].Out? || Acts(c, f(j), f(j + 1), i))
  }

  ghost predicate HasTurn(c: Config, f: nat -> State, i: nat, k: nat) {
    exists j: nat :: TurnAt(c, f, i, k, j)
  }

  /** An endless run in which every thread inside acts again and again, as its timed wait makes it. */
  ghost predicate FairRun(c: Config, f: nat -> State) {
    && (forall k: nat :: StepAt(c, f, k))
    && (forall i: nat, k: nat :: HasTurn(c, f, i, k))
  }

  ghost predicate ReturnsAt(c: Config, f: nat -> State, k: nat) {
    Returning(c, f(k), f(k + 1))
  }

  ghost predicate Returning(c: Config, s: State, s': State) {
    MayLock(s, 0) && WaitReturns(c, s, s', Arrive(s, 0).fAllOk)
  }

  /** The invariant holds and the master is inside. */
  ghost predicate InWait(c: Config, s: State) {
    Inv(c, s) && !s.threads[0].Out?
  }

  /** A thread that gets work done, or ends the wait, when it acts. */
  ghost predicate Busy(s: State, i: nat) {
    && i < |s.threads|
    && (s.threads[i].Working? || (i == 0 && s.threads[i].Idle? && (s.queue != [] || s.nTodo == 0)))
  }

  lemma SomeBusy(c: Config, s: State) returns (i: nat)
    requires InWait(c, s)
    ensures Busy(s, i)
  {
    i := 0;
    if s.threads[0].Idle? && s.queue == [] && s.nTodo != 0 {
      if m :| 0 <= m < |s.threads| && InFlight(s.threads[m]) != 0 {
        i := m;
      } else {
        SumAllZero(s.threads);
      }
    }
  }

  lemma BusyActs(c: Config, s: State, s': State, i: nat)
    requires InWait(c, s) && Busy(s, i) && Acts(c, s, s', i) && Next(c, s, s')
    ensures Returning(c, s, s') || (InWait(c, s') && Left(s') < Left(s))
  {
    NextOk(c, s, s');
    if MayLock(s, i) && s' == Locked(c, s, i) {
      if s.threads[i].Working? || s.queue != [] {
        LockedProgress(c, s, i);
      }
    } else {
      ExecutesProgress(c, s, s', i);
    }
  }

  /** A thread with nothing to do changes nothing for the others. */
  lemma IdleLock(c: Config, s: State, m: nat, i: nat)
    requires InWait(c, s) && Busy(s, i) && MayLock(s, m) && !s.threads[m].Working? && s.queue == []
    ensures var s' := Locked(c, s, m);
            Returning(c, s, s') || (!s'.threads[0].Out? && Busy(s', i))
  {
  }

  lemma BusyStays(c: Config, s: State, s': State, i: nat)
    requires InWait(c, s) && Busy(s, i) && Next(c, s, s')
    ensures Returning(c, s, s') || (InWait(c, s') && (Left(s') < Left(s) || (Left(s') == Left(s) && Busy(s', i))))
  {
    NextOk(c, s, s');
    if m: nat :| MayLock(s, m) && s' == Locked(c, s, m) {
      LockStays(c, s, m, i);
    } else if m: nat :| Executes(c, s, s', m) {
      ExecutesProgress(c, s, s', m);
    }
  }

  lemma LockStays(c: Config, s: State, m: nat, i: nat)
    requires InWait(c, s) && Busy(s, i) && MayLock(s, m)
    ensures var s' := Locked(c, s, m);
            Returning(c, s, s') || (!s'.threads[0].Out? && (Left(s') < Left(s) || (Left(s') == Left(s) && Busy(s', i))))
  {
    if s.threads[m].Working? || s.queue != [] {
      LockedProgress(c, s, m);
    } else {
      LockedKeeps(c, s, m);
      IdleLock(c, s, m, i);
    }
  }

  /** From k on a busy thread stays busy until work gets done or the wait ends, or it is its turn at j. */
  lemma {:induction false} UntilTurn(c: Config, f: nat -> State, i: nat, k: nat, j: nat) returns (m: nat)
    requires FairRun(c, f) && InWait(c, f(k)) && Busy(f(k), i) && TurnAt(c, f, i, k, j)
    ensures k <= m && (ReturnsAt(c, f, m) || (InWait(c, f(m)) && Left(f(m)) < Left(f(k))))
    decreases j - k
  {
    assert StepAt(c, f, k);
    if ReturnsAt(c, f, k) {
      m := k;
    } else if j == k {
      BusyActs(c, f(k), f(k + 1), i);
      m := k + 1;
    } else {
      BusyStays(c, f(k), f(k + 1), i);
      if Left(f(k + 1)) < Left(f(k)) {
        m := k + 1;
      } else {
        m := UntilTurn(c, f, i, k + 1, j);
      }
    }
  }

  lemma {:induction false} ReturnsWithin(c: Config, f: nat -> State, k: nat, n: nat) returns (m: nat)
    requires FairRun(c, f) && InWait(c, f(k)) && Left(f(k)) <= n
    ensures k <= m && ReturnsAt(c, f, m)
    decreases n
  {
    var i := SomeBusy(c, f(k));
    assert HasTurn(c, f, i, k);
    var j: nat :| TurnAt(c, f, i, k, j);
    m := UntilTurn(c, f, i, k, j);
    if !ReturnsAt(c, f, m) {
      LeftNatural(c, f(m));
      m := ReturnsWithin(c, f, m, n - 1);
    }
  }

  /** The run up to state k. */
  ghost function Part(f: nat -> State, k: nat): (trace: seq<State>)
    ensures |trace| == k + 1 && forall j :: 0 <= j <= k ==> trace[j] == f(j)
  {
    seq(k + 1, j requires 0 <= j <= k => f(j))
  }

  lemma PartRuns(c: Config, workers: nat, f: nat -> State, k: nat)
    requires FairRun(c, f) && f(0) == Initial(workers)
    ensures Run(c, workers, Part(f, k)) && Inv(c, f(k))
  {
    var trace := Part(f, k);
    forall j: nat | j < k ensures Next(c, trace[j], trace[j + 1]) {
      assert StepAt(c, f, j);
    }
    RunOk(c, workers, trace);
    assert Inv(c, trace[k]);
  }

  /** In every fair run of a new queue, whenever the master is inside, waiting returns in the end, with the right verdict. */
  lemma WaitEnds(c: Config, workers: nat, f: nat -> State, k: nat) returns (m: nat)
    requires FairRun(c, f) && f(0) == Initial(workers) && |f(k).threads| > 0 && !f(k).threads[0].Out?
    ensures k <= m && WaitReturns(c, f(m), f(m + 1), AllPass(c, f(m).round)) && Unused(f(m + 1))
  {
    PartRuns(c, workers, f, k);
    LeftNatural(c, f(k));
    m := ReturnsWithin(c, f, k, Left(f(k)));
    PartRuns(c, workers, f, m);
    WaitVerdict(c, workers, Part(f, m), m, f(m + 1), Arrive(f(m), 0).fAllOk);
  }
}
