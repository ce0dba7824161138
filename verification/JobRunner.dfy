/** The concurrent test runner as a transition system: one dispatcher that also collects,
    n workers, two FIFO queues and an interrupt flag, over all interleavings. */
module JobRunner {
  import opened Wrappers
  import opened Sums

  /** What the dispatcher knows about a test, and the exit code it would have if run. */
  datatype Task = Task(name: string, isSkip: bool, skipReason: string, exitCode: int)

  /** A queued job. Break is the special job that tells one worker to stop; a real job that
      comes back with isBreak set was interrupted. */
  datatype Job =
    | Break
    | Real(id: nat, task: Task, isBreak: bool, returncode: Option<int>)

  datatype Worker =
    | Waiting
    | Holding(job: Job)
    | Running(job: Job)
    | Putting(job: Job)
    | Returned

  datatype Dispatcher =
    | Dispatching(next: nat)
    | Breaking(sent: nat)
    | Collecting
    | Joining(joined: nat)
    | Finished

  datatype State = State(threadExit: bool, input: seq<Job>, workers: seq<Worker>, output: seq<Job>,
                         main: Dispatcher, collected: seq<Job>)

  datatype Action =
    | PutJob | PutBreak | Collect | Join | Advance
    | Get(w: nat) | Decide(w: nat) | Finish(w: nat) | PutResult(w: nat)
    | Sigint

  function Init(n: nat): State {
    State(false, [], seq(n, _ => Waiting), [], Dispatching(0), [])
  }

  // ---------- the steps ----------

  function SetWorker(s: State, w: nat, x: Worker): State
    requires w < |s.workers|
  {
    s.(workers := s.workers[w := x])
  }

  /** The dispatcher's own steps; Advance moves on to its next loop. */
  function MainStep(tasks: seq<Task>, n: nat, s: State, a: Action): Option<State> {
    match (a, s.main)
    case (PutJob, Dispatching(i)) =>
      if i < |tasks|
      then Some(s.(input := s.input + [Real(i, tasks[i], false, None)], main := Dispatching(i + 1))) else None
    case (Advance, Dispatching(i)) =>
      if i == |tasks| then Some(s.(main := Breaking(0))) else None
    case (PutBreak, Breaking(k)) =>
      if k < n then Some(s.(input := s.input + [Break], main := Breaking(k + 1))) else None
    case (Advance, Breaking(k)) =>
      if k == n then Some(s.(main := Collecting)) else None
    case (Collect, Collecting) =>
      if |s.collected| < |tasks| && s.output != []
      then Some(s.(output := s.output[1..], collected := s.collected + [s.output[0]])) else None
    case (Advance, Collecting) =>
      if |s.collected| == |tasks| then Some(s.(main := Joining(0))) else None
    case (Join, Joining(k)) =>
      if k < |s.workers| && s.workers[k].Returned? then Some(s.(main := Joining(k + 1))) else None
    case (Advance, Joining(k)) =>
      if k == |s.workers| then Some(s.(main := Finished)) else None
    case _ => None
  }

  /** Worker w's steps: take a job; stop on a break job, else mark it when the interrupt flag
      is up, else pass a skipped one through, else run it; hand it back. */
  function WorkerStep(s: State, a: Action): Option<State> {
    match a
    case Get(w) =>
      if w < |s.workers| && s.workers[w].Waiting? && s.input != []
      then Some(SetWorker(s, w, Holding(s.input[0])).(input := s.input[1..])) else None
    case Decide(w) =>
      if w < |s.workers| && s.workers[w].Holding? then
        var job := s.workers[w].job;
        if job.Break? then Some(SetWorker(s, w, Returned))
        else if s.threadExit then Some(SetWorker(s, w, Putting(job.(isBreak := true))))
        else if job.task.isSkip then Some(SetWorker(s, w, Putting(job)))
        else Some(SetWorker(s, w, Running(job)))
      else None
    case Finish(w) =>
      if w < |s.workers| && s.workers[w].Running? && s.workers[w].job.Real?
      then var job := s.workers[w].job;
           Some(SetWorker(s, w, Putting(job.(returncode := Some(job.task.exitCode)))))
      else None
    case PutResult(w) =>
      if w < |s.workers| && s.workers[w].Putting?
      then Some(SetWorker(s, w, Waiting).(output := s.output + [s.workers[w].job])) else None
    case _ => None
  }

  function Next(tasks: seq<Task>, n: nat, s: State, a: Action): Option<State> {
    match a
    case Sigint => if s.threadExit then None else Some(s.(threadExit := true))
    case Get(_) => WorkerStep(s, a)
    case Decide(_) => WorkerStep(s, a)
    case Finish(_) => WorkerStep(s, a)
    case PutResult(_) => WorkerStep(s, a)
    case _ => MainStep(tasks, n, s, a)
  }

  /** The state a run of actions leads to, if every one of them was possible. */
  function After(tasks: seq<Task>, n: nat, run: seq<Action>): Option<State> {
    if run == [] then Some(Init(n))
    else
      match After(tasks, n, run[..|run| - 1])
      case None => None
      case Some(s) => Next(tasks, n, s, run[|run| - 1])
  }

  // ---------- where a job is ----------

  ghost function IsJob(i: nat): Job -> nat {
    (j: Job) => if j.Real? && j.id == i then 1 else 0
  }

  ghost function Has(i: nat): Worker -> nat {
    (w: Worker) => if (w.Holding? || w.Running? || w.Putting?) && w.job.Real? && w.job.id == i then 1 else 0
  }

  /** How many copies of job i there are in the queues, with workers, and collected. */
  ghost function Copies(s: State, i: nat): nat {
    Sum(s.input, IsJob(i)) + Sum(s.workers, Has(i)) + Sum(s.output, IsJob(i)) + Sum(s.collected, IsJob(i))
  }

  ghost const BreakJob: Job -> nat := (j: Job) => if j.Break? then 1 else 0

  /** Workers that have taken their break job. */
  ghost const Stopping: Worker -> nat :=
    (w: Worker) => if w.Returned? || (w.Holding? && w.job.Break?) then 1 else 0

  ghost function Dispatched(tasks: seq<Task>, s: State): nat {
    if s.main.Dispatching? then s.main.next else |tasks|
  }

  ghost function BreaksSent(n: nat, s: State): nat {
    match s.main
    case Dispatching(_) => 0
    case Breaking(k) => k
    case _ => n
  }

  /** As it left the dispatcher. */
  ghost predicate Unstarted(tasks: seq<Task>, job: Job) {
    job.Real? ==> job.id < |tasks| && job == Real(job.id, tasks[job.id], false, None)
  }

  /** As a worker hands it back: marked because the flag was up, or skipped, or run. */
  ghost predicate Settled(tasks: seq<Task>, threadExit: bool, job: Job) {
    && job.Real? && job.id < |tasks|
    && (job.isBreak ==> threadExit && job == Real(job.id, tasks[job.id], true, None))
    && (!job.isBreak ==> job == Honest(tasks, job.id))
  }

  /** What becomes of job i when nobody interrupts. */
  ghost function Honest(tasks: seq<Task>, i: nat): Job
    requires i < |tasks|
  {
    Real(i, tasks[i], false, if tasks[i].isSkip then None else Some(tasks[i].exitCode))
  }

  ghost predicate WorkerOk(tasks: seq<Task>, threadExit: bool, w: Worker) {
    match w
    case Holding(job) => Unstarted(tasks, job)
    case Running(job) => job.Real? && Unstarted(tasks, job) && !job.task.isSkip
    case Putting(job) => Settled(tasks, threadExit, job)
    case _ => true
  }

  ghost predicate MainOk(tasks: seq<Task>, n: nat, s: State) {
    |s.workers| == n && match s.main
    case Dispatching(i) => i <= |tasks| && s.collected == []
    case Breaking(k) => k <= n && s.collected == []
    case Collecting => |s.collected| <= |tasks|
    case Joining(k) => |s.collected| == |tasks| && k <= n && forall w :: 0 <= w < k ==> s.workers[w].Returned?
    case Finished => |s.collected| == |tasks| && forall w :: 0 <= w < n ==> s.workers[w].Returned?
  }

  /** Breaks come last in the input queue, and once one has been taken no real job is left. */
  ghost predicate BreaksLast(s: State) {
    && (forall i, j :: 0 <= i < j < |s.input| && s.input[i].Break? ==> s.input[j].Break?)
    && (forall w :: 0 <= w < |s.workers| && Stopping(s.workers[w]) == 1 ==> forall j :: j in s.input ==> j.Break?)
  }

  ghost predicate OneCopyEach(tasks: seq<Task>, s: State) {
    forall i: nat :: Copies(s, i) == if i < Dispatched(tasks, s) then 1 else 0
  }

  ghost predicate Inv(tasks: seq<Task>, n: nat, s: State) {
    && MainOk(tasks, n, s)
    && BreaksLast(s)
    && OneCopyEach(tasks, s)
    && BreaksAddUp(n, s)
    && JobsOk(tasks, n, s)
  }

  /** Every break sent is still queued or has been taken by a worker. */
  ghost predicate BreaksAddUp(n: nat, s: State) {
    Sum(s.input, BreakJob) + Sum(s.workers, Stopping) == BreaksSent(n, s)
  }

  ghost predicate JobsOk(tasks: seq<Task>, n: nat, s: State) {
    && |s.workers| == n
    && (forall j :: j in s.input ==> Unstarted(tasks, j))
    && (forall w :: 0 <= w < n ==> WorkerOk(tasks, s.threadExit, s.workers[w]))
    && (forall j :: j in s.output ==> Settled(tasks, s.threadExit, j))
    && (forall j :: j in s.collected ==> Settled(tasks, s.threadExit, j))
  }

  // ---------- every step keeps the invariant ----------

  /** Nothing has been taken or sent: no breaks anywhere. */
  lemma NoStoppingWhileDispatching(tasks: seq<Task>, n: nat, s: State)
    requires Inv(tasks, n, s) && BreaksSent(n, s) == 0
    ensures forall j :: j in s.input ==> j.Real?
    ensures forall w :: 0 <= w < n ==> Stopping(s.workers[w]) == 0
  {
    SumZeroIff(s.input, BreakJob);
    SumZeroIff(s.workers, Stopping);
    forall w | 0 <= w < n
      ensures Stopping(s.workers[w]) == 0
    {
      assert s.workers[w] in s.workers;
    }
    forall j | j in s.input
      ensures j.Real?
    {
      assert BreakJob(j) == 0;
    }
  }

  lemma PutJobKeepsInv(tasks: seq<Task>, n: nat, s: State, s': State)
    requires Inv(tasks, n, s) && Next(tasks, n, s, PutJob) == Some(s')
    ensures Inv(tasks, n, s')
  {
    NoStoppingWhileDispatching(tasks, n, s);
    var job := Real(s.main.next, tasks[s.main.next], false, None);
    forall i: nat
      ensures Copies(s', i) == if i < Dispatched(tasks, s') then 1 else 0
    {
      assert Copies(s, i) == if i < Dispatched(tasks, s) then 1 else 0;
      SumSnoc(s.input, job, IsJob(i));
    }
    SumSnoc(s.input, job, BreakJob);
  }

  lemma PutBreakKeepsInv(tasks: seq<Task>, n: nat, s: State, s': State)
    requires Inv(tasks, n, s) && Next(tasks, n, s, PutBreak) == Some(s')
    ensures Inv(tasks, n, s')
  {
    forall i: nat
      ensures Copies(s', i) == if i < Dispatched(tasks, s') then 1 else 0
    {
      assert Copies(s, i) == if i < Dispatched(tasks, s) then 1 else 0;
      SumSnoc(s.input, Break, IsJob(i));
    }
    SumSnoc(s.input, Break, BreakJob);
  }

  lemma CollectKeepsInv(tasks: seq<Task>, n: nat, s: State, s': State)
    requires Inv(tasks, n, s) && Next(tasks, n, s, Collect) == Some(s')
    ensures Inv(tasks, n, s')
  {
    forall i: nat
      ensures Copies(s', i) == if i < Dispatched(tasks, s') then 1 else 0
    {
      assert Copies(s, i) == if i < Dispatched(tasks, s) then 1 else 0;
      SumPopFirst(s.output, IsJob(i));
      SumSnoc(s.collected, s.output[0], IsJob(i));
    }
  }

  lemma GetKeepsSums(tasks: seq<Task>, n: nat, s: State, s': State, w: nat)
    requires Inv(tasks, n, s) && Next(tasks, n, s, Get(w)) == Some(s')
    ensures OneCopyEach(tasks, s') && BreaksAddUp(n, s')
  {
    hide MainOk, BreaksLast, JobsOk;
    var x := Holding(s.input[0]);
    forall i: nat
      ensures Copies(s', i) == if i < Dispatched(tasks, s') then 1 else 0
    {
      assert Copies(s, i) == if i < Dispatched(tasks, s) then 1 else 0;
      SumPopFirst(s.input, IsJob(i));
      SumUpdate(s.workers, w, x, Has(i));
    }
    SumPopFirst(s.input, BreakJob);
    SumUpdate(s.workers, w, x, Stopping);
  }

  lemma GetKeepsInv(tasks: seq<Task>, n: nat, s: State, s': State, w: nat)
    requires Inv(tasks, n, s) && Next(tasks, n, s, Get(w)) == Some(s')
    ensures Inv(tasks, n, s')
  {
    GetKeepsSums(tasks, n, s, s', w);
    hide OneCopyEach, BreaksAddUp, Settled;
    assert s.input[0] in s.input;
    assert forall j :: j in s'.input ==> j in s.input;
  }

  /** A worker goes on to its next phase with the same job, or returns with its break job. */
  lemma PhaseKeepsInv(tasks: seq<Task>, n: nat, s: State, w: nat, x: Worker)
    requires Inv(tasks, n, s) && w < |s.workers| && !s.workers[w].Returned?
    requires forall i: nat :: Has(i)(x) == Has(i)(s.workers[w])
    requires Stopping(x) == Stopping(s.workers[w]) && WorkerOk(tasks, s.threadExit, x)
    ensures Inv(tasks, n, SetWorker(s, w, x))
  {
    var s' := SetWorker(s, w, x);
    assert OneCopyEach(tasks, s') by {
      forall i: nat
        ensures Copies(s', i) == if i < Dispatched(tasks, s') then 1 else 0
      {
        assert Copies(s, i) == if i < Dispatched(tasks, s) then 1 else 0;
        assert Has(i)(x) == Has(i)(s.workers[w]);
        SumUpdate(s.workers, w, x, Has(i));
      }
    }
    assert BreaksAddUp(n, s') by {
      SumUpdate(s.workers, w, x, Stopping);
    }
    hide OneCopyEach, BreaksAddUp, Settled;
  }

  lemma DecideKeepsInv(tasks: seq<Task>, n: nat, s: State, s': State, w: nat)
    requires Inv(tasks, n, s) && Next(tasks, n, s, Decide(w)) == Some(s')
    ensures Inv(tasks, n, s')
  {
    var x := s'.workers[w];
    assert s' == SetWorker(s, w, x);
    assert WorkerOk(tasks, s.threadExit, s.workers[w]);
    hide Inv;
    PhaseKeepsInv(tasks, n, s, w, x);
  }

  lemma FinishKeepsInv(tasks: seq<Task>, n: nat, s: State, s': State, w: nat)
    requires Inv(tasks, n, s) && Next(tasks, n, s, Finish(w)) == Some(s')
    ensures Inv(tasks, n, s')
  {
    assert WorkerOk(tasks, s.threadExit, s.workers[w]);
    hide Inv;
    PhaseKeepsInv(tasks, n, s, w, s'.workers[w]);
  }

  lemma PutResultKeepsSums(tasks: seq<Task>, n: nat, s: State, s': State, w: nat)
    requires Inv(tasks, n, s) && Next(tasks, n, s, PutResult(w)) == Some(s')
    ensures OneCopyEach(tasks, s') && BreaksAddUp(n, s')
  {
    assert WorkerOk(tasks, s.threadExit, s.workers[w]);
    var job := s.workers[w].job;
    assert job.Real?;
    hide MainOk, BreaksLast, JobsOk, WorkerOk, Settled;
    forall i: nat
      ensures Copies(s', i) == if i < Dispatched(tasks, s') then 1 else 0
    {
      assert Copies(s, i) == if i < Dispatched(tasks, s) then 1 else 0;
      SumUpdate(s.workers, w, Waiting, Has(i));
      SumSnoc(s.output, job, IsJob(i));
    }
    SumUpdate(s.workers, w, Waiting, Stopping);
  }

  lemma PutResultKeepsInv(tasks: seq<Task>, n: nat, s: State, s': State, w: nat)
    requires Inv(tasks, n, s) && Next(tasks, n, s, PutResult(w)) == Some(s')
    ensures Inv(tasks, n, s')
  {
    PutResultKeepsSums(tasks, n, s, s', w);
    assert WorkerOk(tasks, s.threadExit, s.workers[w]);
    hide OneCopyEach, BreaksAddUp, Settled;
  }

  lemma AdvanceKeepsInv(tasks: seq<Task>, n: nat, s: State, s': State, a: Action)
    requires Inv(tasks, n, s) && (a.Advance? || a.Join? || a.Sigint?) && Next(tasks, n, s, a) == Some(s')
    ensures Inv(tasks, n, s')
  {
    assert OneCopyEach(tasks, s') by {
      forall i: nat
        ensures Copies(s', i) == Copies(s, i)
      {
      }
    }
    assert BreaksAddUp(n, s');
    hide OneCopyEach, BreaksAddUp, Copies, Unstarted;
    SigintKeepsSettled(tasks, s.threadExit);
    hide Settled;
  }

  /** Raising the flag takes nothing away from a job handed back. */
  lemma SigintKeepsSettled(tasks: seq<Task>, threadExit: bool)
    ensures forall j :: Settled(tasks, threadExit, j) ==> Settled(tasks, true, j)
  {
  }

  lemma NextKeepsInv(tasks: seq<Task>, n: nat, s: State, a: Action, s': State)
    requires Inv(tasks, n, s) && Next(tasks, n, s, a) == Some(s')
    ensures Inv(tasks, n, s')
  {
    hide *;
    match a
    case PutJob => PutJobKeepsInv(tasks, n, s, s');
    case PutBreak => PutBreakKeepsInv(tasks, n, s, s');
    case Collect => CollectKeepsInv(tasks, n, s, s');
    case Get(w) => GetKeepsInv(tasks, n, s, s', w);
    case Decide(w) => DecideKeepsInv(tasks, n, s, s', w);
    case Finish(w) => FinishKeepsInv(tasks, n, s, s', w);
    case PutResult(w) => PutResultKeepsInv(tasks, n, s, s', w);
    case _ => AdvanceKeepsInv(tasks, n, s, s', a);
  }

  lemma InitInv(tasks: seq<Task>, n: nat)
    ensures Inv(tasks, n, Init(n))
  {
    var s := Init(n);
    forall i: nat
      ensures Copies(s, i) == 0
    {
      SumZeroIff(s.workers, Has(i));
    }
    SumZeroIff(s.workers, Stopping);
  }

  /** The invariant holds after every run, whatever the interleaving. */
  lemma {:induction false} AfterInv(tasks: seq<Task>, n: nat, run: seq<Action>)
    requires After(tasks, n, run).Some?
    ensures Inv(tasks, n, After(tasks, n, run).value)
  {
    hide Inv, Next, Init;
    if run == [] {
      InitInv(tasks, n);
    } else {
      var before := run[..|run| - 1];
      AfterInv(tasks, n, before);
      NextKeepsInv(tasks, n, After(tasks, n, before).value, run[|run| - 1], After(tasks, n, run).value);
    }
  }

  // ---------- order of jobs and breaks ----------

  /** No worker takes a break job before every real job has been put in and taken out. */
  lemma BreaksComeLast(tasks: seq<Task>, n: nat, run: seq<Action>, s: State, w: nat)
    requires After(tasks, n, run) == Some(s) && w < |s.workers| && Stopping(s.workers[w]) == 1
    ensures !s.main.Dispatching? && forall j :: j in s.input ==> j.Break?
  {
    AfterInv(tasks, n, run);
    if BreaksSent(n, s) == 0 {
      NoStoppingWhileDispatching(tasks, n, s);
    }
  }

  /** How many break jobs worker w has taken in a run. */
  ghost function BreaksTaken(tasks: seq<Task>, n: nat, run: seq<Action>, w: nat): nat {
    if run == [] then 0
    else
      var init, a := run[..|run| - 1], run[|run| - 1];
      BreaksTaken(tasks, n, init, w) +
      if a == Get(w) && After(tasks, n, init).Some? && After(tasks, n, init).value.input != []
         && After(tasks, n, init).value.input[0].Break? then 1 else 0
  }

  /** It has taken one iff it is stopping, and never a second. */
  lemma {:induction false} TakenIsStopping(tasks: seq<Task>, n: nat, run: seq<Action>, s: State, w: nat)
    requires After(tasks, n, run) == Some(s) && w < |s.workers|
    ensures BreaksTaken(tasks, n, run, w) == Stopping(s.workers[w])
  {
    if run != [] {
      var init, a := run[..|run| - 1], run[|run| - 1];
      var s0 := After(tasks, n, init).value;
      hide After;
      WorkersStay(tasks, n, s0, a, s);
      TakenIsStopping(tasks, n, init, s0, w);
      StoppingChanges(tasks, n, s0, a, s, w);
    }
  }

  lemma WorkersStay(tasks: seq<Task>, n: nat, s: State, a: Action, s': State)
    requires Next(tasks, n, s, a) == Some(s')
    ensures |s'.workers| == |s.workers|
  {
  }

  lemma StoppingChanges(tasks: seq<Task>, n: nat, s: State, a: Action, s': State, w: nat)
    requires Next(tasks, n, s, a) == Some(s') && w < |s.workers| == |s'.workers|
    ensures Stopping(s'.workers[w]) == Stopping(s.workers[w]) +
      if a == Get(w) && s.input != [] && s.input[0].Break? then 1 else 0
  {
  }

  // ---------- no run gets stuck ----------

  ghost predicate CanStep(tasks: seq<Task>, n: nat, s: State) {
    exists a :: a != Sigint && Next(tasks, n, s, a).Some?
  }

  /** A worker that is busy can always go on. */
  lemma BusyWorkerSteps(tasks: seq<Task>, n: nat, s: State, w: nat)
    requires Inv(tasks, n, s) && w < n && !s.workers[w].Waiting? && !s.workers[w].Returned?
    ensures CanStep(tasks, n, s)
  {
    assert WorkerOk(tasks, s.threadExit, s.workers[w]);
    var a := match s.workers[w] case Holding(_) => Decide(w) case Running(_) => Finish(w) case _ => PutResult(w);
    assert Next(tasks, n, s, a).Some?;
  }

  lemma WaitingWorkerSteps(tasks: seq<Task>, n: nat, s: State, w: nat)
    requires w < |s.workers| && s.workers[w].Waiting? && s.input != []
    ensures CanStep(tasks, n, s)
  {
    assert Next(tasks, n, s, Get(w)).Some?;
  }

  ghost function IdBelow(m: nat): Job -> nat {
    (j: Job) => if j.Real? && j.id < m then 1 else 0
  }

  lemma IdsBelowNext(jobs: seq<Job>, m: nat)
    ensures Sum(jobs, IdBelow(m + 1)) == Sum(jobs, IdBelow(m)) + Sum(jobs, IsJob(m))
  {
    SumOfTwo(jobs, IdBelow(m), IsJob(m), IdBelow(m + 1));
  }

  /** If every job below m is there, there are at least m. */
  lemma {:induction false} AtLeastAll(jobs: seq<Job>, m: nat)
    requires forall i: nat :: i < m ==> Sum(jobs, IsJob(i)) >= 1
    ensures Sum(jobs, IdBelow(m)) >= m
  {
    if m > 0 {
      AtLeastAll(jobs, m - 1);
      IdsBelowNext(jobs, m - 1);
    }
  }

  /** If no job is there twice and job k < m is missing, there are fewer than m. */
  lemma {:induction false} FewerWithout(jobs: seq<Job>, m: nat, k: nat)
    requires forall i: nat :: Sum(jobs, IsJob(i)) <= 1
    requires Sum(jobs, IsJob(k)) == 0
    ensures Sum(jobs, IdBelow(m)) <= if k < m then m - 1 else m
  {
    if m > 0 {
      FewerWithout(jobs, m - 1, k);
      IdsBelowNext(jobs, m - 1);
    } else {
      SumZeroIff(jobs, IdBelow(0));
    }
  }

  /** Fewer results collected than there are jobs: some job's result is still to come. */
  lemma SomeJobMissing(jobs: seq<Job>, m: nat) returns (i: nat)
    requires |jobs| < m
    ensures i < m && Sum(jobs, IsJob(i)) == 0
  {
    SumAtMostLength(jobs, IdBelow(m));
    if forall i: nat :: i < m ==> Sum(jobs, IsJob(i)) >= 1 {
      AtLeastAll(jobs, m);
    }
    i :| i < m && Sum(jobs, IsJob(i)) == 0;
  }

  lemma CollectingCanStep(tasks: seq<Task>, n: nat, s: State)
    requires n >= 1 && Inv(tasks, n, s) && s.main.Collecting?
    ensures CanStep(tasks, n, s)
  {
    if |s.collected| == |tasks| {
      assert Next(tasks, n, s, Advance).Some?;
    } else if s.output != [] {
      assert Next(tasks, n, s, Collect).Some?;
    } else if w :| 0 <= w < n && !s.workers[w].Waiting? && !s.workers[w].Returned? {
      BusyWorkerSteps(tasks, n, s, w);
    } else {
      var i := SomeJobMissing(s.collected, |tasks|);
      assert Copies(s, i) == 1;
      SumZeroIff(s.workers, Has(i));
      SumZeroIff(s.input, IsJob(i));
      assert exists j :: j in s.input && j.Real?;
      assert s.workers[0].Waiting?;
      WaitingWorkerSteps(tasks, n, s, 0);
    }
  }

  lemma JoiningCanStep(tasks: seq<Task>, n: nat, s: State)
    requires Inv(tasks, n, s) && s.main.Joining?
    ensures CanStep(tasks, n, s)
  {
    var k := s.main.joined;
    if k == n {
      assert Next(tasks, n, s, Advance).Some?;
    } else if s.workers[k].Returned? {
      assert Next(tasks, n, s, Join).Some?;
    } else if !s.workers[k].Waiting? {
      BusyWorkerSteps(tasks, n, s, k);
    } else {
      SumAtMostLength(s.workers, Stopping);
      assert s.workers[k] in s.workers && Stopping(s.workers[k]) == 0;
      SumZeroIff(s.input, BreakJob);
      WaitingWorkerSteps(tasks, n, s, k);
    }
  }

  /** Wherever a run has got to, if it is not finished some thread can go on without the
      help of another interrupt. */
  lemma NoDeadlock(tasks: seq<Task>, n: nat, run: seq<Action>)
    requires n >= 1 && After(tasks, n, run).Some? && !After(tasks, n, run).value.main.Finished?
    ensures CanStep(tasks, n, After(tasks, n, run).value)
  {
    AfterInv(tasks, n, run);
    var s := After(tasks, n, run).value;
    match s.main
    case Dispatching(i) =>
      assert i < |tasks| ==> Next(tasks, n, s, PutJob).Some?;
      assert i == |tasks| ==> Next(tasks, n, s, Advance).Some?;
    case Breaking(k) =>
      assert k < n ==> Next(tasks, n, s, PutBreak).Some?;
      assert k == n ==> Next(tasks, n, s, Advance).Some?;
    case Collecting => CollectingCanStep(tasks, n, s);
    case Joining(_) => JoiningCanStep(tasks, n, s);
  }

  // ---------- every run is finite ----------

  ghost const JobWork: Job -> nat := (j: Job) => if j.Break? then 2 else 5
  ghost const WorkerWork: Worker -> nat :=
    (w: Worker) => match w
      case Holding(job) => if job.Break? then 1 else 4
      case Running(_) => 3
      case Putting(_) => 2
      case _ => 0

  ghost function MainWork(tasks: seq<Task>, n: nat, main: Dispatcher): int {
    match main
    case Dispatching(i) => 6 * (|tasks| - i) + 4 * n + 4
    case Breaking(k) => 3 * (n - k) + n + 3
    case Collecting => n + 2
    case Joining(k) => n - k + 1
    case Finished => 0
  }

  /** Steps that can still be taken from s. */
  ghost function Work(tasks: seq<Task>, n: nat, s: State): int {
    Sum(s.input, JobWork) + Sum(s.workers, WorkerWork) + |s.output| + MainWork(tasks, n, s.main)
    + if s.threadExit then 0 else 1
  }

  lemma WorkerStepLowersWork(tasks: seq<Task>, n: nat, s: State, a: Action, s': State, w: nat)
    requires Inv(tasks, n, s) && Next(tasks, n, s, a) == Some(s')
    requires a == Get(w) || a == Decide(w) || a == Finish(w) || a == PutResult(w)
    ensures Work(tasks, n, s') < Work(tasks, n, s)
  {
    assert WorkerOk(tasks, s.threadExit, s.workers[w]);
    var x := s'.workers[w];
    assert s'.workers == s.workers[w := x] && s'.main == s.main && s'.threadExit == s.threadExit;
    SumUpdate(s.workers, w, x, WorkerWork);
    if a.Get? {
      SumPopFirst(s.input, JobWork);
      hide Inv, Settled, MainWork, Sum, WorkerOk, Unstarted;
    } else {
      hide Inv, Settled, MainWork, Sum, Unstarted;
    }
  }

  lemma PutLowersWork(tasks: seq<Task>, n: nat, s: State, a: Action, s': State)
    requires (a.PutJob? || a.PutBreak?) && Next(tasks, n, s, a) == Some(s')
    ensures Work(tasks, n, s') < Work(tasks, n, s)
  {
    if a.PutJob? {
      SumSnoc(s.input, Real(s.main.next, tasks[s.main.next], false, None), JobWork);
    } else {
      SumSnoc(s.input, Break, JobWork);
    }
  }

  lemma MainStepLowersWork(tasks: seq<Task>, n: nat, s: State, a: Action, s': State)
    requires MainOk(tasks, n, s) && Next(tasks, n, s, a) == Some(s')
    requires a.Collect? || a.Join? || a.Advance? || a.Sigint?
    ensures Work(tasks, n, s') < Work(tasks, n, s)
  {
  }

  lemma NextLowersWork(tasks: seq<Task>, n: nat, s: State, a: Action, s': State)
    requires Inv(tasks, n, s) && Next(tasks, n, s, a) == Some(s')
    ensures Work(tasks, n, s') < Work(tasks, n, s)
  {
    assert MainOk(tasks, n, s);
    hide *;
    match a
    case PutJob => PutLowersWork(tasks, n, s, a, s');
    case PutBreak => PutLowersWork(tasks, n, s, a, s');
    case Get(w) => WorkerStepLowersWork(tasks, n, s, a, s', w);
    case Decide(w) => WorkerStepLowersWork(tasks, n, s, a, s', w);
    case Finish(w) => WorkerStepLowersWork(tasks, n, s, a, s', w);
    case PutResult(w) => WorkerStepLowersWork(tasks, n, s, a, s', w);
    case _ => MainStepLowersWork(tasks, n, s, a, s');
  }

  /** Each job takes at most six steps and each worker at most four more. */
  lemma {:induction false} RunsEnd(tasks: seq<Task>, n: nat, run: seq<Action>)
    requires After(tasks, n, run).Some?
    ensures |run| + Work(tasks, n, After(tasks, n, run).value) <= 6 * |tasks| + 4 * n + 5
    ensures Work(tasks, n, After(tasks, n, run).value) >= 0
  {
    if run == [] {
      SumZeroIff(Init(n).workers, WorkerWork);
    } else {
      var before := run[..|run| - 1];
      RunsEnd(tasks, n, before);
      AfterInv(tasks, n, before);
      NextLowersWork(tasks, n, After(tasks, n, before).value, run[|run| - 1], After(tasks, n, run).value);
      AfterInv(tasks, n, run);
      assert MainWork(tasks, n, After(tasks, n, run).value.main) >= 0;
    }
  }

  // ---------- how every run ends ----------

  /** Both queues empty, every worker gone, each job collected exactly once. */
  ghost predicate CleanEnd(tasks: seq<Task>, n: nat, s: State) {
    && s.input == [] && s.output == []
    && s.workers == seq(n, _ => Returned)
    && |s.collected| == |tasks|
    && (forall i: nat :: Sum(s.collected, IsJob(i)) == if i < |tasks| then 1 else 0)
    && (forall j :: j in s.collected ==> Settled(tasks, s.threadExit, j))
  }

  lemma EachCollectedOnce(tasks: seq<Task>, n: nat, s: State, k: nat)
    requires Inv(tasks, n, s) && |s.collected| == |tasks| && !s.main.Dispatching?
    ensures Sum(s.collected, IsJob(k)) == if k < |tasks| then 1 else 0
  {
    forall i: nat
      ensures Sum(s.collected, IsJob(i)) <= if i < |tasks| then 1 else 0
    {
      assert Copies(s, i) <= 1;
    }
    if k < |tasks| && Sum(s.collected, IsJob(k)) == 0 {
      FewerWithout(s.collected, |tasks|, k);
      SumAtMostLength(s.collected, IdBelow(|tasks|));
    }
  }

  lemma FinishedIsClean(tasks: seq<Task>, n: nat, s: State)
    requires n >= 1 && Inv(tasks, n, s) && s.main.Finished?
    ensures CleanEnd(tasks, n, s)
  {
    forall i: nat
      ensures Sum(s.collected, IsJob(i)) == if i < |tasks| then 1 else 0
    {
      EachCollectedOnce(tasks, n, s, i);
    }
    forall i: nat
      ensures Sum(s.output, IsJob(i)) == 0
    {
      assert Copies(s, i) == if i < |tasks| then 1 else 0;
    }
    NoneBelow(s.output, |tasks|);
    SumAtMostLength(s.output, IdBelow(|tasks|));
    assert forall w :: w in s.workers ==> Stopping(w) == 1;
    SumAtMostLength(s.workers, Stopping);
    assert Stopping(s.workers[0]) == 1;
    SumAtMostLength(s.input, BreakJob);
    hide OneCopyEach;
  }

  lemma {:induction false} NoneBelow(jobs: seq<Job>, m: nat)
    requires forall i: nat :: Sum(jobs, IsJob(i)) == 0
    ensures Sum(jobs, IdBelow(m)) == 0
  {
    if m > 0 {
      NoneBelow(jobs, m - 1);
      IdsBelowNext(jobs, m - 1);
    } else {
      SumZeroIff(jobs, IdBelow(0));
    }
  }

  /** Every run that finishes, under any interleaving and any interrupt, ends cleanly. */
  lemma RunsEndCleanly(tasks: seq<Task>, n: nat, run: seq<Action>)
    requires n >= 1 && After(tasks, n, run).Some? && After(tasks, n, run).value.main.Finished?
    ensures CleanEnd(tasks, n, After(tasks, n, run).value)
  {
    AfterInv(tasks, n, run);
    FinishedIsClean(tasks, n, After(tasks, n, run).value);
  }

  /** In a finished run every worker has taken exactly one break job. */
  lemma OneBreakEach(tasks: seq<Task>, n: nat, run: seq<Action>, w: nat)
    requires n >= 1 && After(tasks, n, run).Some? && After(tasks, n, run).value.main.Finished? && w < n
    ensures BreaksTaken(tasks, n, run, w) == 1
  {
    RunsEndCleanly(tasks, n, run);
    TakenIsStopping(tasks, n, run, After(tasks, n, run).value, w);
  }

  /** With at least one worker, whatever has happened so far, the run can be brought to its end. */
  lemma {:induction false} RunsCanFinish(tasks: seq<Task>, n: nat, run: seq<Action>) returns (all: seq<Action>)
    requires n >= 1 && After(tasks, n, run).Some?
    ensures run <= all && After(tasks, n, all).Some? && After(tasks, n, all).value.main.Finished?
    decreases 6 * |tasks| + 4 * n + 5 - |run|
  {
    var s := After(tasks, n, run).value;
    hide Next, Init;
    if s.main.Finished? {
      all := run;
    } else {
      NoDeadlock(tasks, n, run);
      var a :| a != Sigint && Next(tasks, n, s, a).Some?;
      assert (run + [a])[..|run|] == run;
      RunsEnd(tasks, n, run + [a]);
      all := RunsCanFinish(tasks, n, run + [a]);
    }
  }
}
