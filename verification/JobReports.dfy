/** What the test runner's report says about the tests, told from the jobs and from the tests
    themselves. */
module JobReports {
  import opened Wrappers
  import opened Sums
  import opened JobRunner
  import opened JobTallies

  ghost function Where<T(!new)>(s: seq<T>, p: T -> bool): seq<T> {
    if s == [] then [] else Where(s[..|s| - 1], p) + if p(s[|s| - 1]) then [s[|s| - 1]] else []
  }

  // ---------- told from the jobs ----------

  /** Exit code 0 passes, 1 fails, 2 is a valgrind error, and anything else a crash; a skipped job has
      none of these, and an interrupted one is no more than that. */
  ghost function JobIs(k: Kind): Job -> bool {
    (j: Job) => j.Real? && match k
      case Interrupted => j.isBreak
      case Skipped => !j.isBreak && j.task.isSkip
      case Passed => !j.isBreak && !j.task.isSkip && j.returncode == Some(0)
      case Failed => !j.isBreak && !j.task.isSkip && j.returncode == Some(1)
      case Valgrind => !j.isBreak && !j.task.isSkip && j.returncode == Some(2)
      case Crashed => !j.isBreak && !j.task.isSkip && j.returncode !in {Some(0), Some(1), Some(2)}
  }

  ghost function JobNames(jobs: seq<Job>): seq<string>
    requires forall j :: j in jobs ==> j.Real?
  {
    if jobs == [] then [] else JobNames(jobs[..|jobs| - 1]) + [jobs[|jobs| - 1].task.name]
  }

  ghost function JobReasons(jobs: seq<Job>): seq<string>
    requires forall j :: j in jobs ==> j.Real?
  {
    if jobs == [] then []
    else
      var task := jobs[|jobs| - 1].task;
      JobReasons(jobs[..|jobs| - 1]) + [task.name + " (" + task.skipReason + ")"]
  }

  lemma WhereSnoc<T(!new)>(s: seq<T>, x: T, p: T -> bool)
    ensures Where(s + [x], p) == Where(s, p) + if p(x) then [x] else []
  {
    assert (s + [x])[..|s|] == s;
  }

  lemma JobNamesSnoc(jobs: seq<Job>, job: Job)
    requires job.Real? && forall j :: j in jobs ==> j.Real?
    ensures JobNames(jobs + [job]) == JobNames(jobs) + [job.task.name]
    ensures JobReasons(jobs + [job]) == JobReasons(jobs) + [job.task.name + " (" + job.task.skipReason + ")"]
  {
    assert (jobs + [job])[..|jobs|] == jobs;
  }

  lemma KindAgrees(job: Job, k: Kind)
    requires job.Real?
    ensures KindOf(job) == k <==> JobIs(k)(job)
    ensures k in {Failed, Valgrind, Crashed} && KindOf(job) == k ==> Label(job) == job.task.name
    ensures k == Skipped && KindOf(job) == k ==> Label(job) == job.task.name + " (" + job.task.skipReason + ")"
  {
  }

  /** The jobs of a kind are as many as are counted, and named as they are listed. */
  ghost predicate ListsKind(jobs: seq<Job>, k: Kind, some: seq<Job>)
    requires forall j :: j in jobs ==> j.Real?
  {
    && (forall j :: j in some ==> j.Real?)
    && Sum(jobs, IsKind(k)) == |some|
    && (k in {Failed, Valgrind, Crashed} ==> NamesOf(jobs, k) == JobNames(some))
    && (k == Skipped ==> NamesOf(jobs, k) == JobReasons(some))
  }

  lemma ListsOneMore(init: seq<Job>, last: Job, k: Kind, some: seq<Job>)
    requires last.Real? && (forall j :: j in init ==> j.Real?) && ListsKind(init, k, some)
    ensures ListsKind(init + [last], k, some + if JobIs(k)(last) then [last] else [])
  {
    KindSnoc(init, last);
    KindAgrees(last, k);
    JobNamesSnoc(some, last);
    var more := some + if JobIs(k)(last) then [last] else [];
    assert forall j :: j in more ==> j in some || j == last;
    assert some + [] == some;
    hide JobIs, JobNames, JobReasons, NamesOf, Sum, KindOf, Label;
    assert NamesOf(init, k) + [] == NamesOf(init, k);
  }

  lemma {:induction false} KindMeans(jobs: seq<Job>, k: Kind)
    requires forall j :: j in jobs ==> j.Real?
    ensures ListsKind(jobs, k, Where(jobs, JobIs(k)))
  {
    if jobs != [] {
      var init, last := jobs[..|jobs| - 1], jobs[|jobs| - 1];
      assert last in jobs && forall j :: j in init ==> j in jobs;
      assert jobs == init + [last];
      hide ListsKind, JobIs;
      KindMeans(init, k);
      ListsOneMore(init, last, k, Where(init, JobIs(k)));
    }
  }

  /** Whatever was collected, every counter counts, and every list names, the jobs of its kind. */
  lemma TallyMeans(t: Tally, jobs: seq<Job>)
    requires (forall j :: j in jobs ==> j.Real?) && IsTallyOf(t, jobs)
    ensures forall k, j :: j in Where(jobs, JobIs(k)) ==> j.Real?
    ensures t.passed == |Where(jobs, JobIs(Passed))| && t.failed == |Where(jobs, JobIs(Failed))|
    ensures t.valgrind == |Where(jobs, JobIs(Valgrind))| && t.crashed == |Where(jobs, JobIs(Crashed))|
    ensures t.skipped == |Where(jobs, JobIs(Skipped))|
    ensures t.failedNames == JobNames(Where(jobs, JobIs(Failed)))
    ensures t.valgrindNames == JobNames(Where(jobs, JobIs(Valgrind)))
    ensures t.crashedNames == JobNames(Where(jobs, JobIs(Crashed)))
    ensures t.skippedNames == JobReasons(Where(jobs, JobIs(Skipped)))
  {
    hide Where, JobIs, JobNames, JobReasons, NamesOf, Sum;
    forall k, j | j in Where(jobs, JobIs(k))
      ensures j.Real?
    {
      KindMeans(jobs, k);
    }
    KindMeans(jobs, Passed);
    KindMeans(jobs, Failed);
    KindMeans(jobs, Valgrind);
    KindMeans(jobs, Crashed);
    KindMeans(jobs, Skipped);
  }

  // ---------- told from the tests ----------

  ghost function ExitsWith(code: int): Task -> bool {
    (t: Task) => !t.isSkip && t.exitCode == code
  }

  ghost const Crashes: Task -> bool := (t: Task) => !t.isSkip && t.exitCode !in {0, 1, 2}

  ghost const IsSkipped: Task -> bool := (t: Task) => t.isSkip

  ghost function TaskNames(tasks: seq<Task>): seq<string> {
    if tasks == [] then [] else TaskNames(tasks[..|tasks| - 1]) + [tasks[|tasks| - 1].name]
  }

  ghost function TaskReasons(tasks: seq<Task>): seq<string> {
    if tasks == [] then []
    else
      var last := tasks[|tasks| - 1];
      TaskReasons(tasks[..|tasks| - 1]) + [last.name + " (" + last.skipReason + ")"]
  }

  ghost function TaskIs(k: Kind): Task -> bool {
    match k
    case Passed => ExitsWith(0)
    case Failed => ExitsWith(1)
    case Valgrind => ExitsWith(2)
    case Crashed => Crashes
    case Skipped => IsSkipped
    case Interrupted => (t: Task) => false
  }

  /** What the tests come back as when nobody interrupts. */
  ghost function HonestJobs(tasks: seq<Task>, m: nat): (r: seq<Job>)
    requires m <= |tasks|
    ensures |r| == m && forall i :: 0 <= i < m ==> r[i] == Honest(tasks, i)
  {
    if m == 0 then [] else HonestJobs(tasks, m - 1) + [Honest(tasks, m - 1)]
  }

  lemma TaskNamesSnoc(tasks: seq<Task>, task: Task)
    ensures TaskNames(tasks + [task]) == TaskNames(tasks) + [task.name]
    ensures TaskReasons(tasks + [task]) == TaskReasons(tasks) + [task.name + " (" + task.skipReason + ")"]
  {
    assert (tasks + [task])[..|tasks|] == tasks;
  }

  lemma HonestAgrees(tasks: seq<Task>, i: nat, k: Kind)
    requires i < |tasks|
    ensures var job := Honest(tasks, i);
      && (KindOf(job) == k <==> TaskIs(k)(tasks[i]))
      && (k in {Failed, Valgrind, Crashed} && KindOf(job) == k ==> Label(job) == tasks[i].name)
      && (k == Skipped && KindOf(job) == k ==> Label(job) == tasks[i].name + " (" + tasks[i].skipReason + ")")
  {
  }

  /** The same of tests. */
  ghost predicate ListsTasks(jobs: seq<Job>, k: Kind, some: seq<Task>)
    requires forall j :: j in jobs ==> j.Real?
  {
    && Sum(jobs, IsKind(k)) == |some|
    && (k in {Failed, Valgrind, Crashed} ==> NamesOf(jobs, k) == TaskNames(some))
    && (k == Skipped ==> NamesOf(jobs, k) == TaskReasons(some))
  }

  lemma ListsOneTask(tasks: seq<Task>, i: nat, jobs: seq<Job>, k: Kind, some: seq<Task>)
    requires i < |tasks| && (forall j :: j in jobs ==> j.Real?) && ListsTasks(jobs, k, some)
    ensures ListsTasks(jobs + [Honest(tasks, i)], k, some + if TaskIs(k)(tasks[i]) then [tasks[i]] else [])
  {
    KindSnoc(jobs, Honest(tasks, i));
    HonestAgrees(tasks, i, k);
    TaskNamesSnoc(some, tasks[i]);
    hide TaskIs, TaskNames, TaskReasons, NamesOf, Sum, KindOf, Label;
    assert some + [] == some && NamesOf(jobs, k) + [] == NamesOf(jobs, k);
  }

  lemma {:induction false} HonestKinds(tasks: seq<Task>, m: nat, k: Kind)
    requires m <= |tasks|
    ensures forall j :: j in HonestJobs(tasks, m) ==> j.Real?
    ensures ListsTasks(HonestJobs(tasks, m), k, Where(tasks[..m], TaskIs(k)))
  {
    if m > 0 {
      var init, task := tasks[..m - 1], tasks[m - 1];
      assert tasks[..m] == init + [task];
      hide ListsTasks, TaskIs;
      HonestKinds(tasks, m - 1, k);
      ListsOneTask(tasks, m - 1, HonestJobs(tasks, m - 1), k, Where(init, TaskIs(k)));
    }
  }

  lemma CountSnoc(jobs: seq<Job>, job: Job, x: Job)
    ensures multiset(jobs + [job])[x] == multiset(jobs)[x] + if x == job then 1 else 0
  {
  }

  lemma {:induction false} HonestOnce(tasks: seq<Task>, m: nat, x: Job)
    requires m <= |tasks|
    ensures multiset(HonestJobs(tasks, m))[x] == if x.Real? && x.id < m && x == Honest(tasks, x.id) then 1 else 0
  {
    if m > 0 {
      CountSnoc(HonestJobs(tasks, m - 1), Honest(tasks, m - 1), x);
      HonestOnce(tasks, m - 1, x);
      assert Honest(tasks, m - 1).id == m - 1;
      assert HonestJobs(tasks, m) == HonestJobs(tasks, m - 1) + [Honest(tasks, m - 1)];
      hide *;
    }
  }

  lemma CollectedAreHonest(tasks: seq<Task>, n: nat, s: State)
    requires CleanEnd(tasks, n, s) && !s.threadExit
    ensures multiset(s.collected) == multiset(HonestJobs(tasks, |tasks|))
  {
    forall x: Job
      ensures multiset(s.collected)[x] == multiset(HonestJobs(tasks, |tasks|))[x]
    {
      HonestMultiplicity(tasks, n, s, x);
      HonestOnce(tasks, |tasks|, x);
    }
  }

  lemma ReportedKind(tasks: seq<Task>, n: nat, s: State, k: Kind)
    requires CleanEnd(tasks, n, s) && !s.threadExit
    ensures forall j :: j in s.collected ==> j.Real?
    ensures Sum(s.collected, IsKind(k)) == |Where(tasks, TaskIs(k))|
    ensures k in {Failed, Valgrind, Crashed} ==>
      multiset(NamesOf(s.collected, k)) == multiset(TaskNames(Where(tasks, TaskIs(k))))
    ensures k == Skipped ==> multiset(NamesOf(s.collected, k)) == multiset(TaskReasons(Where(tasks, TaskIs(k))))
  {
    var honest := HonestJobs(tasks, |tasks|);
    CollectedAreHonest(tasks, n, s);
    assert forall j :: j in honest ==> j.Real?;
    HonestKinds(tasks, |tasks|, k);
    assert tasks[..|tasks|] == tasks;
    hide HonestJobs, Where, TaskIs, IsKind, NamesOf, TaskNames, TaskReasons, Sum;
    SumOfRearranged(s.collected, honest, IsKind(k));
    NamesRearranged(s.collected, honest, k);
  }

  /** After a run nobody interrupted, each counter counts the tests with its exit codes, and each list
      holds their names, the skipped ones with the reason in brackets, in some order. */
  lemma ReportMeans(tasks: seq<Task>, n: nat, s: State, t: Tally)
    requires CleanEnd(tasks, n, s) && !s.threadExit && IsTallyOf(t, s.collected)
    ensures t.passed == |Where(tasks, ExitsWith(0))| && t.failed == |Where(tasks, ExitsWith(1))|
    ensures t.valgrind == |Where(tasks, ExitsWith(2))| && t.crashed == |Where(tasks, Crashes)|
    ensures t.skipped == |Where(tasks, IsSkipped)|
    ensures multiset(t.failedNames) == multiset(TaskNames(Where(tasks, ExitsWith(1))))
    ensures multiset(t.valgrindNames) == multiset(TaskNames(Where(tasks, ExitsWith(2))))
    ensures multiset(t.crashedNames) == multiset(TaskNames(Where(tasks, Crashes)))
    ensures multiset(t.skippedNames) == multiset(TaskReasons(Where(tasks, IsSkipped)))
  {
    hide Where, CleanEnd, NamesOf, TaskNames, TaskReasons, Sum;
    ReportedKind(tasks, n, s, Passed);
    ReportedKind(tasks, n, s, Failed);
    ReportedKind(tasks, n, s, Valgrind);
    ReportedKind(tasks, n, s, Crashed);
    ReportedKind(tasks, n, s, Skipped);
  }
}
