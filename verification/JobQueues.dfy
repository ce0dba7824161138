/** The two queues keep their order: what a run takes out of one is what was put in, first in first
    out. */
module JobQueues {
  import opened Wrappers
  import opened JobRunner

  /** What one step puts into the input queue. */
  ghost function SentBy(tasks: seq<Task>, s: State, a: Action): seq<Job> {
    if a.PutJob? && s.main.Dispatching? && s.main.next < |tasks|
    then [Real(s.main.next, tasks[s.main.next], false, None)]
    else if a.PutBreak? then [Break]
    else []
  }

  /** What it takes out of it. */
  ghost function TakenBy(s': State, a: Action): seq<Job> {
    if a.Get? && a.w < |s'.workers| && s'.workers[a.w].Holding? then [s'.workers[a.w].job] else []
  }

  /** What it hands back. */
  ghost function HandedBy(s: State, a: Action): seq<Job> {
    if a.PutResult? && a.w < |s.workers| && s.workers[a.w].Putting? then [s.workers[a.w].job] else []
  }

  lemma StepKeepsOrder(tasks: seq<Task>, n: nat, s: State, a: Action, s': State)
    requires Next(tasks, n, s, a) == Some(s')
    ensures s.input + SentBy(tasks, s, a) == TakenBy(s', a) + s'.input
    ensures s.collected + s.output + HandedBy(s, a) == s'.collected + s'.output
  {
    if a.Get? {
      assert s.input == [s.input[0]] + s.input[1..];
    } else if a.Collect? {
      assert s.output == [s.output[0]] + s.output[1..];
    }
  }

  // ---------- over a whole run ----------

  ghost function Sent(tasks: seq<Task>, n: nat, run: seq<Action>): seq<Job>
    requires After(tasks, n, run).Some?
  {
    if run == [] then []
    else Sent(tasks, n, run[..|run| - 1]) + SentBy(tasks, After(tasks, n, run[..|run| - 1]).value, run[|run| - 1])
  }

  ghost function Taken(tasks: seq<Task>, n: nat, run: seq<Action>): seq<Job>
    requires After(tasks, n, run).Some?
  {
    if run == [] then []
    else Taken(tasks, n, run[..|run| - 1]) + TakenBy(After(tasks, n, run).value, run[|run| - 1])
  }

  ghost function HandedBack(tasks: seq<Task>, n: nat, run: seq<Action>): seq<Job>
    requires After(tasks, n, run).Some?
  {
    if run == [] then []
    else HandedBack(tasks, n, run[..|run| - 1]) + HandedBy(After(tasks, n, run[..|run| - 1]).value, run[|run| - 1])
  }

  lemma Regroup<T>(a: seq<T>, b: seq<T>, c: seq<T>, d: seq<T>, e: seq<T>)
    requires b + c == d + e
    ensures a + b + c == a + d + e
  {
    assert a + (b + c) == a + b + c && a + (d + e) == a + d + e;
  }

  /** Jobs are taken in the order they were sent, and collected in the order they were handed back. */
  lemma {:induction false} QueuesKeepOrder(tasks: seq<Task>, n: nat, run: seq<Action>)
    requires After(tasks, n, run).Some?
    ensures var s := After(tasks, n, run).value;
      && Sent(tasks, n, run) == Taken(tasks, n, run) + s.input
      && HandedBack(tasks, n, run) == s.collected + s.output
  {
    if run != [] {
      var init, a := run[..|run| - 1], run[|run| - 1];
      var s, s' := After(tasks, n, init).value, After(tasks, n, run).value;
      hide Next, SentBy, TakenBy, HandedBy;
      QueuesKeepOrder(tasks, n, init);
      StepKeepsOrder(tasks, n, s, a, s');
      Regroup(Taken(tasks, n, init), s.input, SentBy(tasks, s, a), TakenBy(s', a), s'.input);
      hide After;
    }
  }

  ghost function JobsUpTo(tasks: seq<Task>, k: nat): seq<Job>
    requires k <= |tasks|
  {
    if k == 0 then [] else JobsUpTo(tasks, k - 1) + [Real(k - 1, tasks[k - 1], false, None)]
  }

  ghost function Breaks(k: nat): seq<Job> {
    if k == 0 then [] else Breaks(k - 1) + [Break]
  }

  lemma NextJob(tasks: seq<Task>, k: nat, breaks: seq<Job>)
    requires k < |tasks| && breaks == []
    ensures JobsUpTo(tasks, k) + breaks + [Real(k, tasks[k], false, None)] == JobsUpTo(tasks, k + 1) + breaks
  {
  }

  lemma NextBreak(jobs: seq<Job>, k: nat)
    ensures jobs + Breaks(k) + [Break] == jobs + Breaks(k + 1)
  {
  }

  lemma StepSends(tasks: seq<Task>, n: nat, s: State, a: Action, s': State)
    requires MainOk(tasks, n, s) && Next(tasks, n, s, a) == Some(s')
    ensures Dispatched(tasks, s) <= |tasks| && Dispatched(tasks, s') <= |tasks|
    ensures JobsUpTo(tasks, Dispatched(tasks, s)) + Breaks(BreaksSent(n, s)) + SentBy(tasks, s, a)
         == JobsUpTo(tasks, Dispatched(tasks, s')) + Breaks(BreaksSent(n, s'))
  {
    hide Next, MainOk, Dispatched, BreaksSent, JobsUpTo, Breaks;
    StagesMove(tasks, n, s, a, s');
    if a.PutJob? {
      NoBreaks();
      NextJob(tasks, s.main.next, Breaks(0));
    } else {
      NextBreak(JobsUpTo(tasks, Dispatched(tasks, s)), BreaksSent(n, s));
    }
  }

  lemma NoBreaks()
    ensures Breaks(0) == []
  {
  }

  /** How far the dispatcher gets with its two loops. */
  lemma StagesMove(tasks: seq<Task>, n: nat, s: State, a: Action, s': State)
    requires MainOk(tasks, n, s) && Next(tasks, n, s, a) == Some(s')
    ensures Dispatched(tasks, s) <= |tasks|
    ensures if a.PutJob? then s.main.Dispatching? && s.main.next < |tasks| && BreaksSent(n, s) == BreaksSent(n, s') == 0
                              && Dispatched(tasks, s) == s.main.next && Dispatched(tasks, s') == s.main.next + 1
            else Dispatched(tasks, s') == Dispatched(tasks, s)
                 && BreaksSent(n, s') == BreaksSent(n, s) + if a.PutBreak? then 1 else 0
  {
  }

  /** What is sent is every job once, in the tests' order, and then the breaks. */
  lemma {:induction false} SentInOrder(tasks: seq<Task>, n: nat, run: seq<Action>)
    requires After(tasks, n, run).Some?
    ensures var s := After(tasks, n, run).value;
      Dispatched(tasks, s) <= |tasks|
      && Sent(tasks, n, run) == JobsUpTo(tasks, Dispatched(tasks, s)) + Breaks(BreaksSent(n, s))
  {
    if run != [] {
      var init, a := run[..|run| - 1], run[|run| - 1];
      var s, s' := After(tasks, n, init).value, After(tasks, n, run).value;
      AfterInv(tasks, n, init);
      assert MainOk(tasks, n, s);
      hide Next, SentBy, Inv, MainOk, JobsUpTo, Breaks, Dispatched, BreaksSent;
      SentInOrder(tasks, n, init);
      StepSends(tasks, n, s, a, s');
      hide After;
    }
  }
}
