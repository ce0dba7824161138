/** What the test runner reports about the jobs it collected: counters, name lists and the
    exit status, and why the schedule does not matter to them. */
module JobTallies {
  import opened Sums
  import opened JobRunner
  import opened Wrappers

  datatype Kind = Interrupted | Skipped | Passed | Failed | Valgrind | Crashed

  /** How a collected job is counted: an interrupted one before anything else, and a skipped
      one before its exit code is looked at. */
  function KindOf(job: Job): Kind {
    if job.Break? || job.isBreak then Interrupted
    else if job.task.isSkip then Skipped
    else if job.returncode == Some(0) then Passed
    else if job.returncode == Some(1) then Failed
    else if job.returncode == Some(2) then Valgrind
    else Crashed
  }

  datatype Tally = Tally(passed: nat, failed: nat, skipped: nat, crashed: nat, valgrind: nat,
                         skippedNames: seq<string>, failedNames: seq<string>,
                         crashedNames: seq<string>, valgrindNames: seq<string>)

  ghost function IsKind(k: Kind): Job -> nat {
    (j: Job) => if KindOf(j) == k then 1 else 0
  }

  function Label(job: Job): string
    requires job.Real?
  {
    if job.task.isSkip then job.task.name + " (" + job.task.skipReason + ")" else job.task.name
  }

  ghost function NamesOf(jobs: seq<Job>, k: Kind): seq<string>
    requires forall j :: j in jobs ==> j.Real?
  {
    if jobs == [] then []
    else
      var last := jobs[|jobs| - 1];
      NamesOf(jobs[..|jobs| - 1], k) + if KindOf(last) == k then [Label(last)] else []
  }

  /** Each counter counts the jobs of its kind and each list names them in arrival order. */
  ghost predicate IsTallyOf(t: Tally, jobs: seq<Job>)
    requires forall j :: j in jobs ==> j.Real?
  {
    && t.passed == Sum(jobs, IsKind(Passed)) && t.failed == Sum(jobs, IsKind(Failed))
    && t.skipped == Sum(jobs, IsKind(Skipped)) && t.crashed == Sum(jobs, IsKind(Crashed))
    && t.valgrind == Sum(jobs, IsKind(Valgrind))
    && t.skippedNames == NamesOf(jobs, Skipped) && t.failedNames == NamesOf(jobs, Failed)
    && t.crashedNames == NamesOf(jobs, Crashed) && t.valgrindNames == NamesOf(jobs, Valgrind)
  }

  lemma KindSnoc(jobs: seq<Job>, job: Job)
    requires job.Real? && forall j :: j in jobs ==> j.Real?
    ensures forall k :: Sum(jobs + [job], IsKind(k)) == Sum(jobs, IsKind(k)) + if KindOf(job) == k then 1 else 0
    ensures forall k :: NamesOf(jobs + [job], k) == NamesOf(jobs, k) + if KindOf(job) == k then [Label(job)] else []
  {
    assert (jobs + [job])[..|jobs|] == jobs;
    forall k
      ensures Sum(jobs + [job], IsKind(k)) == Sum(jobs, IsKind(k)) + if KindOf(job) == k then 1 else 0
    {
      SumSnoc(jobs, job, IsKind(k));
    }
  }

  /** The collecting loop over the jobs in the order the output queue delivers them. */
  method CollectResults(outputs: seq<Job>) returns (t: Tally)
    requires forall j :: j in outputs ==> j.Real?
    ensures IsTallyOf(t, outputs)
  {
    t := Tally(0, 0, 0, 0, 0, [], [], [], []);
    for i := 0 to |outputs|
      invariant IsTallyOf(t, outputs[..i])
    {
      var job := outputs[i];
      assert outputs[..i + 1] == outputs[..i] + [job];
      KindSnoc(outputs[..i], job);
      if job.isBreak {
        continue;
      }
      if job.task.isSkip {
        t := t.(skipped := t.skipped + 1, skippedNames := t.skippedNames + [Label(job)]);
      } else if job.returncode == Some(0) {
        t := t.(passed := t.passed + 1);
      } else if job.returncode == Some(1) {
        t := t.(failed := t.failed + 1, failedNames := t.failedNames + [Label(job)]);
      } else if job.returncode == Some(2) {
        t := t.(valgrind := t.valgrind + 1, valgrindNames := t.valgrindNames + [Label(job)]);
      } else {
        t := t.(crashed := t.crashed + 1, crashedNames := t.crashedNames + [Label(job)]);
      }
    }
    assert outputs[..|outputs|] == outputs;
  }

  function ExitStatus(t: Tally, totalTests: nat): int {
    if t.passed + t.skipped == totalTests then 0 else 1
  }

  /** No job is lost or counted twice. */
  lemma {:induction false} TallyAddsUp(t: Tally, jobs: seq<Job>)
    requires (forall j :: j in jobs ==> j.Real?) && IsTallyOf(t, jobs)
    ensures t.passed + t.failed + t.skipped + t.crashed + t.valgrind + Sum(jobs, IsKind(Interrupted)) == |jobs|
  {
    hide NamesOf;
    KindsAddUp(jobs);
  }

  lemma {:induction false} KindsAddUp(jobs: seq<Job>)
    ensures Sum(jobs, IsKind(Passed)) + Sum(jobs, IsKind(Failed)) + Sum(jobs, IsKind(Skipped))
          + Sum(jobs, IsKind(Crashed)) + Sum(jobs, IsKind(Valgrind)) + Sum(jobs, IsKind(Interrupted)) == |jobs|
  {
    if jobs != [] {
      KindsAddUp(jobs[..|jobs| - 1]);
    }
  }

  ghost const GoodJob: Job -> nat := (j: Job) => if KindOf(j) == Passed || KindOf(j) == Skipped then 1 else 0

  /** The script exits with 0 iff nothing was interrupted and every test was skipped or exited with 0. */
  lemma SuccessIff(tasks: seq<Task>, n: nat, s: State, t: Tally)
    requires CleanEnd(tasks, n, s) && IsTallyOf(t, s.collected)
    ensures ExitStatus(t, |tasks|) == 0 || ExitStatus(t, |tasks|) == 1
    ensures ExitStatus(t, |tasks|) == 0 <==>
      && (forall j :: j in s.collected ==> !j.isBreak)
      && (forall i :: 0 <= i < |tasks| ==> tasks[i].isSkip || tasks[i].exitCode == 0)
  {
    hide NamesOf;
    var jobs := s.collected;
    SumOfTwo(jobs, IsKind(Passed), IsKind(Skipped), GoodJob);
    SumAtMostLength(jobs, GoodJob);
    if forall j :: j in jobs ==> GoodJob(j) == 1 {
      forall i | 0 <= i < |tasks|
        ensures tasks[i].isSkip || tasks[i].exitCode == 0
      {
        var j := JobOfId(jobs, i);
        assert Settled(tasks, s.threadExit, j) && GoodJob(j) == 1;
      }
    } else {
      var j :| j in jobs && GoodJob(j) != 1;
      assert Settled(tasks, s.threadExit, j);
    }
  }

  lemma JobOfId(jobs: seq<Job>, i: nat) returns (j: Job)
    requires Sum(jobs, IsJob(i)) > 0
    ensures j in jobs && j.Real? && j.id == i
  {
    SumZeroIff(jobs, IsJob(i));
    j :| j in jobs && IsJob(i)(j) != 0;
  }

  // ---------- the schedule does not matter ----------

  /** Without an interrupt, two clean ends have collected the same jobs in some order. */
  lemma SameJobsCollected(tasks: seq<Task>, n1: nat, s1: State, n2: nat, s2: State)
    requires CleanEnd(tasks, n1, s1) && CleanEnd(tasks, n2, s2) && !s1.threadExit && !s2.threadExit
    ensures multiset(s1.collected) == multiset(s2.collected)
  {
    forall x: Job
      ensures multiset(s1.collected)[x] == multiset(s2.collected)[x]
    {
      HonestMultiplicity(tasks, n1, s1, x);
      HonestMultiplicity(tasks, n2, s2, x);
    }
  }

  lemma HonestMultiplicity(tasks: seq<Task>, n: nat, s: State, x: Job)
    requires CleanEnd(tasks, n, s) && !s.threadExit
    ensures multiset(s.collected)[x] == if x.Real? && x.id < |tasks| && x == Honest(tasks, x.id) then 1 else 0
  {
    MultiplicityIsSum(s.collected, x);
    if x.Real? && x.id < |tasks| && x == Honest(tasks, x.id) {
      SumSame(s.collected, Same(x), IsJob(x.id));
    } else {
      SumZeroIff(s.collected, Same(x));
    }
  }

  ghost function Named(k: Kind, name: string): Job -> nat {
    (j: Job) => if j.Real? && KindOf(j) == k && Label(j) == name then 1 else 0
  }

  lemma {:induction false} NameMultiplicity(jobs: seq<Job>, k: Kind, name: string)
    requires forall j :: j in jobs ==> j.Real?
    ensures multiset(NamesOf(jobs, k))[name] == Sum(jobs, Named(k, name))
  {
    if jobs != [] {
      NameMultiplicity(jobs[..|jobs| - 1], k, name);
    }
  }

  lemma NamesRearranged(jobs1: seq<Job>, jobs2: seq<Job>, k: Kind)
    requires (forall j :: j in jobs1 ==> j.Real?) && (forall j :: j in jobs2 ==> j.Real?)
    requires multiset(jobs1) == multiset(jobs2)
    ensures multiset(NamesOf(jobs1, k)) == multiset(NamesOf(jobs2, k))
  {
    forall name: string
      ensures multiset(NamesOf(jobs1, k))[name] == multiset(NamesOf(jobs2, k))[name]
    {
      NameMultiplicity(jobs1, k, name);
      NameMultiplicity(jobs2, k, name);
      SumOfRearranged(jobs1, jobs2, Named(k, name));
    }
  }

  /** Lexicographic order by character code, the order string lists are sorted in. */
  predicate LexLeq(a: string, b: string) {
    a == [] || (b != [] && (a[0] < b[0] || (a[0] == b[0] && LexLeq(a[1..], b[1..]))))
  }

  /** At the first place where they differ the smaller text has the smaller character, or has ended. */
  ghost predicate DifferAt(a: string, b: string, k: nat) {
    && k <= |a| && k < |b| && a[..k] == b[..k]
    && (k < |a| ==> a[k] < b[k])
  }

  lemma {:induction false} LexMeans(a: string, b: string)
    ensures LexLeq(a, b) <==> a == b || exists k: nat :: DifferAt(a, b, k)
  {
    if a == [] {
      assert b == [] || DifferAt(a, b, 0);
    } else if b != [] {
      LexMeans(a[1..], b[1..]);
      assert a == [a[0]] + a[1..] && b == [b[0]] + b[1..];
      if LexLeq(a, b) && a != b {
        if a[0] < b[0] {
          assert DifferAt(a, b, 0);
        } else {
          var k: nat :| DifferAt(a[1..], b[1..], k);
          assert a[..k + 1] == [a[0]] + a[1..][..k] && b[..k + 1] == [b[0]] + b[1..][..k];
          assert DifferAt(a, b, k + 1);
        }
      }
      if k: nat :| DifferAt(a, b, k) {
        if k > 0 {
          assert a[..k][0] == b[..k][0] && a[1..][..k - 1] == a[..k][1..] && b[1..][..k - 1] == b[..k][1..];
          assert DifferAt(a[1..], b[1..], k - 1);
        }
      }
    }
  }

  lemma {:induction false} LexTotalAntisymmetric(a: string, b: string)
    ensures LexLeq(a, b) || LexLeq(b, a)
    ensures LexLeq(a, b) && LexLeq(b, a) ==> a == b
  {
    if a != [] && b != [] {
      LexTotalAntisymmetric(a[1..], b[1..]);
      assert a == [a[0]] + a[1..] && b == [b[0]] + b[1..];
    }
  }

  ghost predicate IsSortOf(sorted: seq<string>, names: seq<string>) {
    && multiset(sorted) == multiset(names)
    && forall i, j :: 0 <= i <= j < |sorted| ==> LexLeq(sorted[i], sorted[j])
  }

  lemma SortsShareHead(s: seq<string>, t: seq<string>)
    requires IsSortOf(s, t) && IsSortOf(t, s) && s != [] && t != []
    ensures s[0] == t[0]
  {
    assert s[0] in multiset(t) && t[0] in multiset(s);
    var i :| 0 <= i < |t| && t[i] == s[0];
    var j :| 0 <= j < |s| && s[j] == t[0];
    LexTotalAntisymmetric(s[0], t[0]);
  }

  lemma WithoutHead<T>(s: seq<T>)
    requires s != []
    ensures s == [s[0]] + s[1..] && multiset(s[1..]) == multiset(s) - multiset{s[0]}
  {
    assert s == [s[0]] + s[1..];
  }

  /** There is only one way to sort a list. */
  lemma {:induction false} SortUnique(s: seq<string>, t: seq<string>)
    requires IsSortOf(s, t) && IsSortOf(t, s)
    ensures s == t
    decreases |s|
  {
    assert |s| == |multiset(s)| == |t|;
    if s != [] {
      SortsShareHead(s, t);
      WithoutHead(s);
      WithoutHead(t);
      SortUnique(s[1..], t[1..]);
      hide LexLeq;
    }
  }

  lemma SortsOfRearranged(s1: seq<string>, s2: seq<string>, names1: seq<string>, names2: seq<string>)
    requires multiset(names1) == multiset(names2) && IsSortOf(s1, names1) && IsSortOf(s2, names2)
    ensures s1 == s2
  {
    SortUnique(s1, s2);
  }

  /** Without an interrupt, any two interleavings of the same tests report the same counts
      and the same sorted name lists. */
  lemma ScheduleIndependent(tasks: seq<Task>, n1: nat, run1: seq<Action>, n2: nat, run2: seq<Action>,
                            t1: Tally, t2: Tally, k: Kind, sorted1: seq<string>, sorted2: seq<string>)
    requires n1 >= 1 && After(tasks, n1, run1).Some? && After(tasks, n1, run1).value.main.Finished?
    requires n2 >= 1 && After(tasks, n2, run2).Some? && After(tasks, n2, run2).value.main.Finished?
    requires !After(tasks, n1, run1).value.threadExit && !After(tasks, n2, run2).value.threadExit
    requires var jobs := After(tasks, n1, run1).value.collected;
      (forall j :: j in jobs ==> j.Real?) && IsTallyOf(t1, jobs) && IsSortOf(sorted1, NamesOf(jobs, k))
    requires var jobs := After(tasks, n2, run2).value.collected;
      (forall j :: j in jobs ==> j.Real?) && IsTallyOf(t2, jobs) && IsSortOf(sorted2, NamesOf(jobs, k))
    ensures t1.passed == t2.passed && t1.failed == t2.failed && t1.skipped == t2.skipped
    ensures t1.crashed == t2.crashed && t1.valgrind == t2.valgrind
    ensures sorted1 == sorted2
  {
    var s1, s2 := After(tasks, n1, run1).value, After(tasks, n2, run2).value;
    RunsEndCleanly(tasks, n1, run1);
    RunsEndCleanly(tasks, n2, run2);
    SameJobsCollected(tasks, n1, s1, n2, s2);
    forall kind: Kind
      ensures Sum(s1.collected, IsKind(kind)) == Sum(s2.collected, IsKind(kind))
    {
      SumOfRearranged(s1.collected, s2.collected, IsKind(kind));
    }
    NamesRearranged(s1.collected, s2.collected, k);
    SortsOfRearranged(sorted1, sorted2, NamesOf(s1.collected, k), NamesOf(s2.collected, k));
  }
}
