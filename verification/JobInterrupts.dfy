/** What an interrupt stops: over whole runs, nothing is started any more, so only jobs that were
    already running can still get an exit code. */
module JobInterrupts {
  import opened Wrappers
  import opened Sums
  import opened JobRunner

  /** Counts of jobs by what they come back with; jobs marked as interrupted do not count. */
  ghost predicate OfUnmarked(f: Job -> nat) {
    forall j: Job :: j.Break? || j.isBreak ==> f(j) == 0
  }

  /** A running job counts as what it will come back as. */
  ghost function OnWorker(f: Job -> nat): Worker -> nat {
    (w: Worker) => match w
      case Running(job) => if job.Real? then f(job.(returncode := Some(job.task.exitCode))) else 0
      case Putting(job) => f(job)
      case _ => 0
  }

  /** The jobs counted by f that are running, finished or collected: all that were let through. */
  ghost function LetThrough(s: State, f: Job -> nat): nat {
    Sum(s.workers, OnWorker(f)) + Sum(s.output, f) + Sum(s.collected, f)
  }

  lemma WorkerKeepsLetThrough(tasks: seq<Task>, n: nat, s: State, a: Action, s': State, f: Job -> nat)
    requires Inv(tasks, n, s) && Next(tasks, n, s, a) == Some(s') && s.threadExit && OfUnmarked(f)
    requires a.Get? || a.Decide? || a.Finish? || a.PutResult?
    ensures LetThrough(s', f) == LetThrough(s, f)
  {
    assert WorkerOk(tasks, s.threadExit, s.workers[a.w]);
    hide Inv, Settled;
    var x := s'.workers[a.w];
    assert s'.workers == s.workers[a.w := x];
    SumUpdate(s.workers, a.w, x, OnWorker(f));
    if a.PutResult? {
      SumSnoc(s.output, s.workers[a.w].job, f);
    }
  }

  lemma MainKeepsLetThrough(tasks: seq<Task>, n: nat, s: State, a: Action, s': State, f: Job -> nat)
    requires Next(tasks, n, s, a) == Some(s') && !(a.Get? || a.Decide? || a.Finish? || a.PutResult?)
    ensures LetThrough(s', f) == LetThrough(s, f)
  {
    if a.Collect? {
      SumPopFirst(s.output, f);
      SumSnoc(s.collected, s.output[0], f);
    }
  }

  /** After an interrupt no step of any thread lets another job through, or loses one. */
  lemma StepKeepsLetThrough(tasks: seq<Task>, n: nat, s: State, a: Action, s': State, f: Job -> nat)
    requires Inv(tasks, n, s) && Next(tasks, n, s, a) == Some(s') && s.threadExit && OfUnmarked(f)
    ensures s'.threadExit && LetThrough(s', f) == LetThrough(s, f)
  {
    assert s'.threadExit;
    hide LetThrough, Inv, Next;
    if a.Get? || a.Decide? || a.Finish? || a.PutResult? {
      WorkerKeepsLetThrough(tasks, n, s, a, s', f);
    } else {
      MainKeepsLetThrough(tasks, n, s, a, s', f);
    }
  }

  lemma {:induction false} PrefixPossible(tasks: seq<Task>, n: nat, run: seq<Action>, i: nat)
    requires i <= |run| && After(tasks, n, run).Some?
    ensures After(tasks, n, run[..i]).Some?
    decreases |run|
  {
    if i == |run| {
      assert run[..i] == run;
    } else {
      PrefixPossible(tasks, n, run[..|run| - 1], i);
      assert run[..|run| - 1][..i] == run[..i];
    }
  }

  /** Whatever happens after an interrupt, the jobs let through are those let through before it. */
  lemma {:induction false} InterruptFreezes(tasks: seq<Task>, n: nat, run: seq<Action>, i: nat, f: Job -> nat)
    requires After(tasks, n, run).Some? && i < |run| && run[i] == Sigint && OfUnmarked(f)
    ensures After(tasks, n, run[..i]).Some? && After(tasks, n, run).value.threadExit
    ensures LetThrough(After(tasks, n, run).value, f) == LetThrough(After(tasks, n, run[..i]).value, f)
    decreases |run|
  {
    PrefixPossible(tasks, n, run, i);
    var init, a := run[..|run| - 1], run[|run| - 1];
    var s, s' := After(tasks, n, init).value, After(tasks, n, run).value;
    if i == |run| - 1 {
      MainKeepsLetThrough(tasks, n, s, a, s', f);
    } else {
      assert init[..i] == run[..i];
      InterruptFreezes(tasks, n, init, i, f);
      AfterInv(tasks, n, init);
      hide After, Inv, Next, LetThrough;
      StepKeepsLetThrough(tasks, n, s, a, s', f);
    }
  }

  // ---------- which jobs, and how many ----------

  ghost function RanAs(i: nat): Job -> nat {
    (j: Job) => if j.Real? && j.id == i && !j.isBreak && j.returncode.Some? then 1 else 0
  }

  ghost const Coded: Job -> nat := (j: Job) => if j.Real? && !j.isBreak && j.returncode.Some? then 1 else 0

  /** Job i has passed a worker's decision: it is running, on its way back, or back. */
  ghost predicate WasStarted(s: State, i: nat) {
    || (exists w :: 0 <= w < |s.workers| && s.workers[w].Running? && s.workers[w].job.Real? && s.workers[w].job.id == i)
    || (exists w :: 0 <= w < |s.workers| && s.workers[w].Putting? && RanAs(i)(s.workers[w].job) == 1)
    || (exists j :: j in s.output && RanAs(i)(j) == 1)
    || (exists j :: j in s.collected && RanAs(i)(j) == 1)
  }

  lemma LetThroughStarted(s: State, i: nat)
    requires LetThrough(s, RanAs(i)) > 0
    ensures WasStarted(s, i)
  {
    SumZeroIff(s.workers, OnWorker(RanAs(i)));
    SumZeroIff(s.output, RanAs(i));
    SumZeroIff(s.collected, RanAs(i));
  }

  /** A job that comes back run, after an interrupt, had been started before it. */
  lemma OnlyStartedJobsRun(tasks: seq<Task>, n: nat, run: seq<Action>, i: nat, j: Job)
    requires After(tasks, n, run).Some? && i < |run| && run[i] == Sigint
    requires j in After(tasks, n, run).value.collected && !j.Break? && !j.isBreak && !j.task.isSkip
    ensures After(tasks, n, run[..i]).Some? && WasStarted(After(tasks, n, run[..i]).value, j.id)
  {
    AfterInv(tasks, n, run);
    var s := After(tasks, n, run).value;
    assert Settled(tasks, s.threadExit, j);
    hide After, Inv;
    var f := RanAs(j.id);
    SumZeroIff(s.collected, f);
    InterruptFreezes(tasks, n, run, i, f);
    LetThroughStarted(After(tasks, n, run[..i]).value, j.id);
  }

  /** How many jobs have their exit code. */
  ghost function ExitCodes(s: State): nat {
    Sum(s.workers, Back) + Sum(s.output, Coded) + Sum(s.collected, Coded)
  }

  ghost const Back: Worker -> nat := (w: Worker) => if w.Putting? then Coded(w.job) else 0

  ghost const Busy: Worker -> nat := (w: Worker) => if w.Running? && w.job.Real? && !w.job.isBreak then 1 else 0

  lemma LetThroughParts(s: State)
    ensures LetThrough(s, Coded) == ExitCodes(s) + Sum(s.workers, Busy)
    ensures Sum(s.workers, Busy) <= |s.workers|
  {
    SumOfTwo(s.workers, Back, Busy, OnWorker(Coded));
    SumAtMostLength(s.workers, Busy);
  }

  /** Hence at most one job per worker, one it was running when the interrupt came, gets an exit
      code afterwards. */
  lemma AtMostOnePerWorkerFinishes(tasks: seq<Task>, n: nat, run: seq<Action>, i: nat)
    requires After(tasks, n, run).Some? && i < |run| && run[i] == Sigint
    ensures After(tasks, n, run[..i]).Some?
    ensures var s0, s := After(tasks, n, run[..i]).value, After(tasks, n, run).value;
      && ExitCodes(s) + Sum(s.workers, Busy) == ExitCodes(s0) + Sum(s0.workers, Busy)
      && Sum(s0.workers, Busy) <= n && ExitCodes(s) <= ExitCodes(s0) + n
  {
    InterruptFreezes(tasks, n, run, i, Coded);
    AfterInv(tasks, n, run[..i]);
    LetThroughParts(After(tasks, n, run[..i]).value);
    LetThroughParts(After(tasks, n, run).value);
    hide After, LetThrough, ExitCodes;
  }

  // ---------- which jobs come back marked ----------

  ghost function UnmarkedAs(i: nat): Job -> nat {
    (j: Job) => if j.Real? && j.id == i && !j.isBreak then 1 else 0
  }

  /** A worker has decided about job i, and not to mark it. */
  ghost predicate WasLetThrough(s: State, i: nat) {
    || (exists w :: 0 <= w < |s.workers| && s.workers[w].Running? && UnmarkedAs(i)(s.workers[w].job) == 1)
    || (exists w :: 0 <= w < |s.workers| && s.workers[w].Putting? && UnmarkedAs(i)(s.workers[w].job) == 1)
    || (exists j :: j in s.output && UnmarkedAs(i)(j) == 1)
    || (exists j :: j in s.collected && UnmarkedAs(i)(j) == 1)
  }

  lemma LetThroughIff(s: State, i: nat)
    ensures LetThrough(s, UnmarkedAs(i)) > 0 <==> WasLetThrough(s, i)
  {
    SumZeroIff(s.workers, OnWorker(UnmarkedAs(i)));
    SumZeroIff(s.output, UnmarkedAs(i));
    SumZeroIff(s.collected, UnmarkedAs(i));
    assert forall w :: 0 <= w < |s.workers| ==> s.workers[w] in s.workers;
  }

  /** A job that is there once is there in one form only. */
  lemma OneForm(jobs: seq<Job>, i: nat, a: Job, b: Job)
    requires Sum(jobs, IsJob(i)) == 1 && a in jobs && b in jobs && IsJob(i)(a) == 1 && IsJob(i)(b) == 1
    ensures a == b
  {
    var k :| 0 <= k < |jobs| && jobs[k] == a;
    SumTakeOut(jobs, k, IsJob(i));
    SumZeroIff(jobs[..k] + jobs[k + 1..], IsJob(i));
    assert jobs == jobs[..k] + [a] + jobs[k + 1..];
  }

  lemma EndHasCollected(tasks: seq<Task>, n: nat, s: State, f: Job -> nat)
    requires CleanEnd(tasks, n, s)
    ensures LetThrough(s, f) == Sum(s.collected, f)
  {
    SumZeroIff(s.workers, OnWorker(f));
  }

  /** When a run finishes, the jobs marked as interrupted are exactly those that no worker had decided
      to let through when the interrupt came, skipped ones among them. */
  lemma MarkedIffUndecided(tasks: seq<Task>, n: nat, run: seq<Action>, i: nat, j: Job)
    requires n >= 1 && After(tasks, n, run).Some? && After(tasks, n, run).value.main.Finished?
    requires i < |run| && run[i] == Sigint && j in After(tasks, n, run).value.collected
    ensures j.Real? && After(tasks, n, run[..i]).Some?
    ensures j.isBreak <==> !WasLetThrough(After(tasks, n, run[..i]).value, j.id)
  {
    RunsEndCleanly(tasks, n, run);
    var s := After(tasks, n, run).value;
    assert Settled(tasks, s.threadExit, j);
    var f := UnmarkedAs(j.id);
    InterruptFreezes(tasks, n, run, i, f);
    LetThroughIff(After(tasks, n, run[..i]).value, j.id);
    EndHasCollected(tasks, n, s, f);
    SumZeroIff(s.collected, f);
    hide After, LetThrough, WasLetThrough, Sum;
    if exists x :: x in s.collected && f(x) == 1 {
      var x :| x in s.collected && f(x) == 1;
      OneForm(s.collected, j.id, x, j);
    }
  }

  /** The flag is up exactly if there was an interrupt; without one no job comes back marked. */
  lemma {:induction false} FlagIffInterrupt(tasks: seq<Task>, n: nat, run: seq<Action>)
    requires After(tasks, n, run).Some?
    ensures After(tasks, n, run).value.threadExit <==> Sigint in run
    ensures Sigint !in run ==> forall j :: j in After(tasks, n, run).value.collected ==> j.Real? && !j.isBreak
  {
    AfterInv(tasks, n, run);
    if run != [] {
      var init, a := run[..|run| - 1], run[|run| - 1];
      assert run == init + [a];
      FlagIffInterrupt(tasks, n, init);
    }
  }
}
