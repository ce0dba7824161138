/** When running a parsed pipeline can fail to bring back a status, and what a directory change
    in the middle of a pipe does. */
module ShellFailures {
  import opened ShellParser
  import opened ShellGrammar
  import opened ShellRun
  import opened Wrappers

  /** Every directory change names its directory and is followed by something. */
  ghost predicate ChdirsComplete(nodes: seq<Node>) {
    forall i :: 0 <= i < |nodes| && nodes[i].Chdir? ==> nodes[i].dir.Some? && i + 1 < |nodes|
  }

  lemma TailWellFormed(nodes: seq<Node>)
    requires WellFormed(nodes) && |nodes| >= 2
    ensures |nodes| >= 3 && WellFormed(nodes[2..])
    ensures IsOp(nodes[1]) && (nodes[0].Command? || (nodes[0].Chdir? && nodes[1] == And))
  {
    var tail := nodes[2..];
    assert NodeOkAt(nodes, 0) && NodeOkAt(nodes, 1);
    hide CommandOk;
    forall i | 0 <= i < |tail|
      ensures NodeOkAt(tail, i)
    {
      assert NodeOkAt(nodes, i + 2);
    }
  }

  lemma TailComplete(nodes: seq<Node>)
    requires WellFormed(nodes) && |nodes| >= 3
    ensures ChdirsComplete(nodes) <==>
      ChdirsComplete(nodes[2..]) && (nodes[0].Chdir? ==> nodes[0].dir.Some?)
  {
    TailWellFormed(nodes);
    hide WellFormed;
    var tail := nodes[2..];
    if ChdirsComplete(tail) && (nodes[0].Chdir? ==> nodes[0].dir.Some?) {
      forall i | 0 <= i < |nodes| && nodes[i].Chdir?
        ensures nodes[i].dir.Some? && i + 1 < |nodes|
      {
        assert i >= 2 ==> tail[i - 2] == nodes[i];
      }
    }
    if ChdirsComplete(nodes) {
      forall i | 0 <= i < |tail| && tail[i].Chdir?
        ensures tail[i].dir.Some? && i + 1 < |tail|
      {
        assert nodes[i + 2] == tail[i];
      }
    }
  }

  lemma OnlyUnit(nodes: seq<Node>)
    requires WellFormed(nodes) && |nodes| < 2
    ensures |nodes| == 1 && (nodes[0].Command? || nodes[0].Chdir?)
    ensures ChdirsComplete(nodes) <==> nodes[0].Command?
  {
    assert NodeOkAt(nodes, 0);
  }

  lemma {:induction false} CompleteRuns(status: Oracle, nodes: seq<Node>, inPipe: bool, cwd: string,
                                        piped: seq<int>, launched: seq<Launch>)
    requires WellFormed(nodes) && ChdirsComplete(nodes)
    ensures RunFrom(status, nodes, inPipe, cwd, piped, launched).Status?
    decreases |nodes|
  {
    if |nodes| < 2 {
      OnlyUnit(nodes);
    } else {
      TailWellFormed(nodes);
      TailComplete(nodes);
      hide WellFormed, ChdirsComplete, LaunchOf, JoinPath;
      var tail := nodes[2..];
      if nodes[0].Chdir? {
        CompleteRuns(status, tail, inPipe, JoinPath(cwd, nodes[0].dir.value), piped, launched);
      } else {
        var launched' := launched + [LaunchOf(nodes[0], inPipe, cwd)];
        CompleteRuns(status, tail, true, cwd, piped + [status(launched')], launched');
        CompleteRuns(status, tail, false, cwd, [], launched');
      }
    }
  }

  /** The status that makes run go on after the k-th command started from here. */
  ghost function Encouraging(nodes: seq<Node>, k: nat): int
    decreases |nodes|
  {
    if |nodes| < 2 then 0
    else if !nodes[0].Command? then Encouraging(nodes[2..], k)
    else if k <= 1 then if nodes[1] == And then 0 else 1
    else Encouraging(nodes[2..], k - 1)
  }

  ghost predicate Encourages(status: Oracle, nodes: seq<Node>, base: nat) {
    forall launched: seq<Launch> :: |launched| > base ==> status(launched) == Encouraging(nodes, |launched| - base)
  }

  lemma {:induction false} EncouragedRaises(status: Oracle, nodes: seq<Node>, inPipe: bool, cwd: string,
                                            piped: seq<int>, launched: seq<Launch>)
    requires WellFormed(nodes) && !ChdirsComplete(nodes) && Encourages(status, nodes, |launched|)
    ensures RunFrom(status, nodes, inPipe, cwd, piped, launched).Raised?
    decreases |nodes|
  {
    if |nodes| < 2 {
      OnlyUnit(nodes);
    } else {
      TailWellFormed(nodes);
      TailComplete(nodes);
      hide WellFormed, ChdirsComplete, LaunchOf, JoinPath;
      var tail := nodes[2..];
      if nodes[0].Chdir? {
        if nodes[0].dir.Some? {
          assert Encourages(status, tail, |launched|);
          EncouragedRaises(status, tail, inPipe, JoinPath(cwd, nodes[0].dir.value), piped, launched);
        }
      } else {
        var launched' := launched + [LaunchOf(nodes[0], inPipe, cwd)];
        assert Encourages(status, tail, |launched'|);
        var piped' := piped + [status(launched')];
        if nodes[1] == Pipe {
          EncouragedRaises(status, tail, true, cwd, piped', launched');
        } else {
          assert LastStatus(piped') == Encouraging(nodes, 1);
          EncouragedRaises(status, tail, false, cwd, [], launched');
        }
      }
    }
  }

  /** A parsed pipeline brings back a status whatever its commands return iff every directory
      change names a directory and is followed by a command; otherwise some exit statuses lead
      run to a directory change that raises. */
  lemma StatusIffComplete(tokens: seq<string>)
    requires ParseTokens(tokens).Some?
    ensures var nodes := ParseTokens(tokens).value;
      ChdirsComplete(nodes) <==> forall status: Oracle :: RunFrom(status, nodes, false, ".", [], []).Status?
  {
    ParsedIsWellFormed(tokens);
    var nodes := ParseTokens(tokens).value;
    hide WellFormed, ChdirsComplete, RunFrom, ParseTokens;
    if ChdirsComplete(nodes) {
      forall status: Oracle
        ensures RunFrom(status, nodes, false, ".", [], []).Status?
      {
        CompleteRuns(status, nodes, false, ".", [], []);
      }
    } else {
      var status: Oracle := (launched: seq<Launch>) => Encouraging(nodes, |launched|);
      EncouragedRaises(status, nodes, false, ".", [], []);
    }
  }

  /** Run can only raise at a directory change: an IndexError where nothing follows it, whether it
      names a directory or not, and a TypeError where something does and it names none. */
  ghost predicate RaisesAt(error: Error, nodes: seq<Node>, i: nat) {
    && i < |nodes| && nodes[i].Chdir?
    && error == (if i + 1 == |nodes| then IndexError else TypeError)
    && (error == TypeError ==> nodes[i].dir.None?)
  }

  lemma {:induction false} RaisedAt(status: Oracle, nodes: seq<Node>, inPipe: bool, cwd: string,
                                    piped: seq<int>, launched: seq<Launch>) returns (i: nat)
    requires WellFormed(nodes) && RunFrom(status, nodes, inPipe, cwd, piped, launched).Raised?
    ensures RaisesAt(RunFrom(status, nodes, inPipe, cwd, piped, launched).error, nodes, i)
    decreases |nodes|
  {
    if |nodes| < 2 {
      OnlyUnit(nodes);
      return 0;
    }
    TailWellFormed(nodes);
    hide WellFormed, LaunchOf, JoinPath, LastStatus;
    var tail := nodes[2..];
    var k: nat;
    if nodes[0].Chdir? {
      if nodes[0].dir.None? {
        return 0;
      }
      k := RaisedAt(status, tail, inPipe, JoinPath(cwd, nodes[0].dir.value), piped, launched);
    } else {
      var launched' := launched + [LaunchOf(nodes[0], inPipe, cwd)];
      var piped' := piped + [status(launched')];
      if nodes[1] == Pipe {
        k := RaisedAt(status, tail, true, cwd, piped', launched');
      } else {
        k := RaisedAt(status, tail, false, cwd, [], launched');
      }
    }
    assert tail[k] == nodes[k + 2];
    i := k + 2;
  }

  // ---------- which commands are started ----------

  /** The commands started from position k on: the number of each node with the process it becomes. */
  ghost function Starts(status: Oracle, nodes: seq<Node>, k: nat, inPipe: bool, cwd: string,
                        piped: seq<int>, launched: seq<Launch>): seq<(nat, Launch)>
    requires k <= |nodes|
    decreases |nodes| - k
  {
    if k == |nodes| then []
    else if nodes[k].Chdir? then
      if k + 1 < |nodes| && nodes[k + 1] == And && nodes[k].dir.Some?
      then Starts(status, nodes, k + 2, inPipe, JoinPath(cwd, nodes[k].dir.value), piped, launched)
      else []
    else if !nodes[k].Command? then []
    else
      var launch := LaunchOf(nodes[k], inPipe, cwd);
      var launched' := launched + [launch];
      var piped' := piped + [status(launched')];
      var retval := LastStatus(piped');
      [(k, launch)] +
      if k + 1 == |nodes| then []
      else match nodes[k + 1]
        case Pipe => Starts(status, nodes, k + 2, true, cwd, piped', launched')
        case Or => if retval == 0 then [] else Starts(status, nodes, k + 2, false, cwd, [], launched')
        case And => if retval != 0 then [] else Starts(status, nodes, k + 2, false, cwd, [], launched')
        case _ => Starts(status, nodes, k + 2, inPipe, cwd, piped', launched')
  }

  ghost function Processes(starts: seq<(nat, Launch)>): seq<Launch> {
    if starts == [] then [] else [starts[0].1] + Processes(starts[1..])
  }

  /** These are the processes run launches. */
  lemma {:induction false} StartsAreLaunched(status: Oracle, nodes: seq<Node>, k: nat, inPipe: bool, cwd: string,
                                             piped: seq<int>, launched: seq<Launch>)
    requires k <= |nodes|
    ensures RunFrom(status, nodes[k..], inPipe, cwd, piped, launched).launched
         == launched + Processes(Starts(status, nodes, k, inPipe, cwd, piped, launched))
    decreases |nodes| - k
  {
    hide LaunchOf, JoinPath, LastStatus;
    var rest := nodes[k..];
    var starts := Starts(status, nodes, k, inPipe, cwd, piped, launched);
    if k + 2 <= |nodes| {
      assert rest[2..] == nodes[k + 2..] && rest[0] == nodes[k] && rest[1] == nodes[k + 1];
      if nodes[k].Chdir? && nodes[k].dir.Some? {
        StartsAreLaunched(status, nodes, k + 2, inPipe, JoinPath(cwd, nodes[k].dir.value), piped, launched);
      } else if nodes[k].Command? {
        var launch := LaunchOf(nodes[k], inPipe, cwd);
        var launched' := launched + [launch];
        var piped' := piped + [status(launched')];
        StartsAreLaunched(status, nodes, k + 2, true, cwd, piped', launched');
        StartsAreLaunched(status, nodes, k + 2, false, cwd, [], launched');
        StartsAreLaunched(status, nodes, k + 2, inPipe, cwd, piped', launched');
        StartsTail(starts, (k, launch), launched);
      }
    } else if k < |nodes| && nodes[k].Command? {
      StartsTail(starts, (k, LaunchOf(nodes[k], inPipe, cwd)), launched);
    }
  }

  lemma StartsTail(starts: seq<(nat, Launch)>, first: (nat, Launch), launched: seq<Launch>)
    requires starts != [] && starts[0] == first
    ensures launched + Processes(starts) == launched + [first.1] + Processes(starts[1..])
    ensures starts[1..] == [] ==> Processes(starts[1..]) == []
  {
    assert launched + ([first.1] + Processes(starts[1..])) == launched + [first.1] + Processes(starts[1..]);
  }

  // ---------- behind a pipe ----------

  /** The next command from position k on, with the directories entered on the way; none if a
      directory change on the way is incomplete. */
  ghost function NextCommand(nodes: seq<Node>, k: nat): Option<(nat, seq<string>)>
    decreases |nodes| - k
  {
    if k >= |nodes| then None
    else if nodes[k].Command? then Some((k, []))
    else if nodes[k].Chdir? && nodes[k].dir.Some? && k + 1 < |nodes| && nodes[k + 1] == And then
      match NextCommand(nodes, k + 2)
      case None => None
      case Some((j, dirs)) => Some((j, [nodes[k].dir.value] + dirs))
    else None
  }

  lemma {:induction false} NextCommandAt(nodes: seq<Node>, k: nat)
    ensures NextCommand(nodes, k).Some? ==>
      var (j, _) := NextCommand(nodes, k).value; k <= j < |nodes| && nodes[j].Command?
    decreases |nodes| - k
  {
    if k + 2 <= |nodes| && !nodes[k].Command? {
      NextCommandAt(nodes, k + 2);
    }
  }

  /** The next command is started as soon as the loop gets to where it is looked for. */
  lemma {:induction false} NextStarts(status: Oracle, nodes: seq<Node>, k: nat, inPipe: bool, cwd: string,
                                      piped: seq<int>, launched: seq<Launch>)
    requires k <= |nodes|
    ensures var starts := Starts(status, nodes, k, inPipe, cwd, piped, launched);
      && (NextCommand(nodes, k).None? ==> starts == [])
      && (NextCommand(nodes, k).Some? ==>
            var (j, dirs) := NextCommand(nodes, k).value;
            j < |nodes| && nodes[j].Command? && starts != []
            && starts[0] == (j, LaunchOf(nodes[j], inPipe, Enter(cwd, dirs))))
    decreases |nodes| - k
  {
    hide LaunchOf, JoinPath;
    NextCommandAt(nodes, k);
    if k + 2 <= |nodes| && nodes[k].Chdir? && nodes[k + 1] == And && nodes[k].dir.Some? {
      NextStarts(status, nodes, k + 2, inPipe, JoinPath(cwd, nodes[k].dir.value), piped, launched);
      if NextCommand(nodes, k + 2).Some? {
        var (_, dirs) := NextCommand(nodes, k + 2).value;
        assert ([nodes[k].dir.value] + dirs)[1..] == dirs;
      }
    }
  }

  /** How a command that writes to a pipe and whatever is started after it are related. */
  ghost predicate PipeContinues(nodes: seq<Node>, i: nat, starts: seq<(nat, Launch)>, m: nat)
    requires 0 < i < |nodes| && m < |starts| && nodes[i - 1].Command?
  {
    match NextCommand(nodes, i + 1)
    case None => |starts| == m + 1
    case Some((j, dirs)) =>
      && j < |nodes| && nodes[j].Command? && m + 1 < |starts|
      && starts[m + 1].0 == j && IsFed(nodes[i - 1], starts[m].1, nodes[j], starts[m + 1].1, dirs)
  }

  ghost predicate IsFed(cmd: Node, launch: Launch, next: Node, nextLaunch: Launch, dirs: seq<string>)
    requires cmd.Command? && next.Command?
  {
    exists piped, dir :: Feeds(cmd, launch, next, nextLaunch, dirs, piped, dir)
  }

  /** The second command's process reads from the first's and runs where the directories lead from
      the first's directory. */
  ghost predicate Feeds(cmd: Node, launch: Launch, next: Node, nextLaunch: Launch, dirs: seq<string>,
                        piped: bool, dir: string)
    requires cmd.Command? && next.Command?
  {
    launch == LaunchOf(cmd, piped, dir) && nextLaunch == LaunchOf(next, true, Enter(dir, dirs))
  }

  lemma {:induction false} StartedPipeContinues(status: Oracle, nodes: seq<Node>, k: nat, inPipe: bool, cwd: string,
                                                piped: seq<int>, launched: seq<Launch>, i: nat, m: nat)
    requires k <= |nodes| && 0 < i < |nodes| && nodes[i] == Pipe
    requires var starts := Starts(status, nodes, k, inPipe, cwd, piped, launched);
      m < |starts| && starts[m].0 == i - 1
    ensures nodes[i - 1].Command?
    ensures PipeContinues(nodes, i, Starts(status, nodes, k, inPipe, cwd, piped, launched), m)
    decreases |nodes| - k
  {
    hide LaunchOf, JoinPath, LastStatus, PipeContinues;
    if nodes[k].Chdir? {
      StartedPipeContinues(status, nodes, k + 2, inPipe, JoinPath(cwd, nodes[k].dir.value), piped, launched, i, m);
    } else {
      var launch := LaunchOf(nodes[k], inPipe, cwd);
      var launched' := launched + [launch];
      var piped' := piped + [status(launched')];
      var starts := Starts(status, nodes, k, inPipe, cwd, piped, launched);
      if m == 0 {
        var tail := Starts(status, nodes, k + 2, true, cwd, piped', launched');
        assert starts == [(k, launch)] + tail;
        NextStarts(status, nodes, k + 2, true, cwd, piped', launched');
        FirstPipeContinues(nodes, i, starts, inPipe, cwd, tail);
      } else {
        var tail := starts[1..];
        assert starts == [(k, launch)] + tail && tail[m - 1] == starts[m];
        if nodes[k + 1] == Pipe {
          StartedPipeContinues(status, nodes, k + 2, true, cwd, piped', launched', i, m - 1);
        } else if nodes[k + 1] == And || nodes[k + 1] == Or {
          StartedPipeContinues(status, nodes, k + 2, false, cwd, [], launched', i, m - 1);
        } else {
          StartedPipeContinues(status, nodes, k + 2, inPipe, cwd, piped', launched', i, m - 1);
        }
        LaterPipeContinues(nodes, i, (k, launch), tail, m - 1);
      }
    }
  }

  lemma FirstPipeContinues(nodes: seq<Node>, i: nat, starts: seq<(nat, Launch)>, inPipe: bool, cwd: string,
                           tail: seq<(nat, Launch)>)
    requires 0 < i < |nodes| && nodes[i - 1].Command?
    requires starts == [(i - 1, LaunchOf(nodes[i - 1], inPipe, cwd))] + tail
    requires NextCommand(nodes, i + 1).None? ==> tail == []
    requires NextCommand(nodes, i + 1).Some? ==>
      var (j, dirs) := NextCommand(nodes, i + 1).value;
      j < |nodes| && nodes[j].Command? && tail != [] && tail[0] == (j, LaunchOf(nodes[j], true, Enter(cwd, dirs)))
    ensures PipeContinues(nodes, i, starts, 0)
  {
    hide LaunchOf, NextCommand, Enter;
    if NextCommand(nodes, i + 1).Some? {
      var (j, dirs) := NextCommand(nodes, i + 1).value;
      assert Feeds(nodes[i - 1], starts[0].1, nodes[j], starts[1].1, dirs, inPipe, cwd);
    }
  }

  lemma LaterPipeContinues(nodes: seq<Node>, i: nat, first: (nat, Launch), tail: seq<(nat, Launch)>, m: nat)
    requires 0 < i < |nodes| && m < |tail| && nodes[i - 1].Command? && PipeContinues(nodes, i, tail, m)
    ensures PipeContinues(nodes, i, [first] + tail, m + 1)
  {
    hide IsFed, NextCommand;
    var all := [first] + tail;
    assert all[m + 1] == tail[m] && (m + 1 < |tail| ==> all[m + 2] == tail[m + 1]);
  }

  /** Wherever a directory change stands behind a pipe, it is no command of its own and the && after
      it is not consulted: whenever run starts the command before the pipe, it next starts the first
      command after the directory changes, whatever statuses come back; that one reads from the pipe
      and runs in the directories entered. Only an incomplete directory change keeps it from
      starting, and then nothing more is started. */
  lemma ChdirInsidePipe(tokens: seq<string>, status: Oracle, i: nat, dir: string, m: nat)
    requires ParseTokens(tokens).Some?
    requires var nodes := ParseTokens(tokens).value;
      && 0 < i < |nodes| - 1 && nodes[i] == Pipe && nodes[i + 1] == Chdir(Some(dir))
      && m < |Starts(status, nodes, 0, false, ".", [], [])|
      && Starts(status, nodes, 0, false, ".", [], [])[m].0 == i - 1
    ensures var nodes := ParseTokens(tokens).value;
      var starts := Starts(status, nodes, 0, false, ".", [], []);
      && RunFrom(status, nodes, false, ".", [], []).launched == Processes(starts)
      && nodes[i - 1].Command?
      && match NextCommand(nodes, i + 1)
         case None => |starts| == m + 1
         case Some((j, dirs)) =>
           && j < |nodes| && nodes[j].Command? && dirs != [] && dirs[0] == dir && m + 1 < |starts|
           && starts[m + 1].0 == j && starts[m + 1].1.stdin == FromPrevious
           && exists cwd :: starts[m].1.cwd == ProcCwd(cwd) && starts[m + 1].1.cwd == ProcCwd(Enter(cwd, dirs))
  {
    var nodes := ParseTokens(tokens).value;
    var starts := Starts(status, nodes, 0, false, ".", [], []);
    StartsAreLaunched(status, nodes, 0, false, ".", [], []);
    assert nodes[0..] == nodes && [] + Processes(starts) == Processes(starts);
    StartedPipeContinues(status, nodes, 0, false, ".", [], [], i, m);
    hide Starts, RunFrom, ParseTokens, ProcCwd, Enter;
  }

  /** The shortest such pipeline: its status is the second command's alone. */
  lemma ShortestPipedChdir(status: Oracle, first: Node, dir: string, second: Node, cwd: string)
    requires first.Command? && second.Command?
    ensures var started := [LaunchOf(first, false, cwd), LaunchOf(second, true, JoinPath(cwd, dir))];
      RunFrom(status, [first, Pipe, Chdir(Some(dir)), And, second], false, cwd, [], [])
        == Status(status(started), started)
  {
    hide LaunchOf, JoinPath;
    var nodes := [first, Pipe, Chdir(Some(dir)), And, second];
    var one := LaunchOf(first, false, cwd);
    var two := LaunchOf(second, true, JoinPath(cwd, dir));
    assert nodes[2..] == [Chdir(Some(dir)), And, second];
    assert nodes[2..][2..] == [second];
    assert [] + [one] == [one] && [one] + [two] == [one, two];
    var last, piped := [second], [] + [status([one])];
    assert RunFrom(status, last, true, JoinPath(cwd, dir), piped, [one]) == Status(status([one, two]), [one, two]);
    assert RunFrom(status, nodes[2..], true, cwd, piped, [one])
        == RunFrom(status, last, true, JoinPath(cwd, dir), piped, [one]);
    assert RunFrom(status, nodes, false, cwd, [], []) == RunFrom(status, nodes[2..], true, cwd, piped, [one]);
  }
}
