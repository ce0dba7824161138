/** Right-nested evaluation compared with the AND-OR lists of section 2.9.3 of the POSIX.1-2017 Shell
    Command Language: operators of equal precedence, from left to right, every directory change an
    element of its own. */
module ShellLists {
  import opened Wrappers
  import opened ShellParser
  import opened ShellGrammar
  import opened ShellRun

  // ---------- lists from left to right ----------

  /** The directory, the processes started and the status after some elements of a list. */
  datatype Progress = Progress(dir: string, launched: seq<Launch>, retval: int)

  /** One more element; it is skipped, and the state kept, unless its operator is due. */
  ghost function ListPipe(status: Oracle, op: Node, cmds: seq<Node>, st: Progress): Progress
    requires forall i :: 0 <= i < |cmds| ==> cmds[i].Command?
  {
    if !GoesOn(op, st.retval) then st
    else
      var all := st.launched + Launches(cmds, false, st.dir);
      Progress(st.dir, all, status(all))
  }

  /** Entering a directory is taken to succeed. */
  ghost function ListChdir(op: Node, dir: string, st: Progress): Progress {
    if GoesOn(op, st.retval) then Progress(JoinPath(st.dir, dir), st.launched, 0) else st
  }

  /** The elements of a segment: its first has the given operator, the others follow an &&. */
  ghost function ListSegment(status: Oracle, op: Node, dirs: seq<string>, cmds: seq<Node>, st: Progress): Progress
    requires forall i :: 0 <= i < |cmds| ==> cmds[i].Command?
    decreases |dirs|
  {
    if dirs == [] then ListPipe(status, op, cmds, st)
    else ListSegment(status, And, dirs[1..], cmds, ListChdir(op, dirs[0], st))
  }

  ghost function ListFrom(status: Oracle, segments: seq<Segment>, ops: seq<Node>, st: Progress): Progress
    requires |segments| == |ops| && forall i :: 0 <= i < |segments| ==> SegmentOk(segments[i])
    decreases |ops|
  {
    if ops == [] then st
    else
      assert SegmentOk(segments[0]);
      ListFrom(status, segments[1..], ops[1..], ListSegment(status, ops[0], segments[0].dirs, segments[0].cmds, st))
  }

  /** The first element of a list is always due, as after a success. */
  ghost function EvalList(status: Oracle, c: Chain, cwd: string, launched: seq<Launch>): Outcome
    requires ChainOk(c)
  {
    assert SegmentOk(c.segments[0]);
    var first := ListSegment(status, And, c.segments[0].dirs, c.segments[0].cmds, Progress(cwd, launched, 0));
    var last := ListFrom(status, c.segments[1..], c.ops, first);
    Status(last.retval, last.launched)
  }

  // ---------- when they agree ----------

  /** One operator joins all pipes, and if it is ||, no pipe after the first is led by a directory
      change. */
  ghost predicate IsPlain(c: Chain) {
    && (forall i :: 0 <= i < |c.ops| ==> c.ops[i] == c.ops[0])
    && (Or in c.ops ==> forall k :: 1 <= k < |c.segments| ==> c.segments[k].dirs == [])
  }

  /** A due segment enters its directories and runs its pipe. */
  lemma {:induction false} DueSegment(status: Oracle, op: Node, dirs: seq<string>, cmds: seq<Node>, st: Progress)
    requires (forall i :: 0 <= i < |cmds| ==> cmds[i].Command?) && GoesOn(op, st.retval)
    ensures var dir := Enter(st.dir, dirs);
      var all := st.launched + Launches(cmds, false, dir);
      ListSegment(status, op, dirs, cmds, st) == Progress(dir, all, status(all))
    decreases |dirs|
  {
    if dirs != [] {
      DueSegment(status, And, dirs[1..], cmds, ListChdir(op, dirs[0], st));
    }
  }

  /** Nothing of an undue segment happens, as long as the && after a directory change is undue too. */
  lemma {:induction false} UndueSegment(status: Oracle, op: Node, dirs: seq<string>, cmds: seq<Node>, st: Progress)
    requires (forall i :: 0 <= i < |cmds| ==> cmds[i].Command?) && !GoesOn(op, st.retval)
    requires st.retval != 0 || dirs == []
    ensures ListSegment(status, op, dirs, cmds, st) == st
    decreases |dirs|
  {
    if dirs != [] {
      UndueSegment(status, And, dirs[1..], cmds, st);
    }
  }

  /** Once a plain list has stopped, nothing starts it again. */
  lemma {:induction false} StaysStopped(status: Oracle, segments: seq<Segment>, ops: seq<Node>, st: Progress)
    requires |segments| == |ops| && forall i :: 0 <= i < |segments| ==> SegmentOk(segments[i])
    requires forall i :: 0 <= i < |ops| ==> !GoesOn(ops[i], st.retval)
    requires st.retval == 0 ==> forall i :: 0 <= i < |segments| ==> segments[i].dirs == []
    ensures ListFrom(status, segments, ops, st) == st
    decreases |ops|
  {
    if ops != [] {
      assert SegmentOk(segments[0]);
      UndueSegment(status, ops[0], segments[0].dirs, segments[0].cmds, st);
      StaysStopped(status, segments[1..], ops[1..], st);
    }
  }

  lemma PlainRest(c: Chain)
    requires ChainOk(c) && c.ops != [] && IsPlain(c)
    ensures IsPlain(Rest(c))
  {
    var rest := Rest(c);
    assert forall i :: 0 <= i < |rest.ops| ==> rest.ops[i] == c.ops[i + 1];
    assert forall k :: 1 <= k < |rest.segments| ==> rest.segments[k] == c.segments[k + 1];
    assert Or in rest.ops ==> Or in c.ops;
  }

  /** A plain list with an undue operator is stopped for good. */
  lemma PlainStops(status: Oracle, c: Chain, st: Progress)
    requires ChainOk(c) && c.ops != [] && IsPlain(c) && !GoesOn(c.ops[0], st.retval)
    ensures ListFrom(status, c.segments[1..], c.ops, st) == st
  {
    if st.retval == 0 {
      assert c.ops[0] == Or;
      assert forall i :: 0 <= i < |c.segments[1..]| ==> c.segments[1..][i].dirs == [];
    }
    StaysStopped(status, c.segments[1..], c.ops, st);
  }

  lemma {:induction false} PlainAgrees(status: Oracle, c: Chain, cwd: string, launched: seq<Launch>)
    requires ChainOk(c) && IsPlain(c)
    ensures var dir := Enter(cwd, c.segments[0].dirs);
      assert SegmentOk(c.segments[0]);
      var all := launched + Launches(c.segments[0].cmds, false, dir);
      var last := ListFrom(status, c.segments[1..], c.ops, Progress(dir, all, status(all)));
      Eval(status, c, cwd, launched) == Status(last.retval, last.launched)
    decreases |c.ops|
  {
    var dir := Enter(cwd, c.segments[0].dirs);
    assert SegmentOk(c.segments[0]);
    var all := launched + Launches(c.segments[0].cmds, false, dir);
    var st := Progress(dir, all, status(all));
    hide SegmentOk, IsPlain, ListSegment, Enter, Launches;
    if c.ops != [] {
      if GoesOn(c.ops[0], st.retval) {
        PlainRest(c);
        PlainAgrees(status, Rest(c), dir, all);
        NextDue(status, c, st);
      } else {
        PlainStops(status, c, st);
      }
    }
  }

  lemma NextDue(status: Oracle, c: Chain, st: Progress)
    requires ChainOk(c) && c.ops != [] && GoesOn(c.ops[0], st.retval)
    ensures var rest := Rest(c);
      var dir := Enter(st.dir, rest.segments[0].dirs);
      assert SegmentOk(rest.segments[0]);
      var all := st.launched + Launches(rest.segments[0].cmds, false, dir);
      ListFrom(status, c.segments[1..], c.ops, st) ==
        ListFrom(status, rest.segments[1..], rest.ops, Progress(dir, all, status(all)))
  {
    var seg := c.segments[1];
    assert SegmentOk(seg);
    DueSegment(status, c.ops[0], seg.dirs, seg.cmds, st);
    hide ListSegment, Enter, Launches, SegmentOk;
  }

  /** A list always runs its first segment. */
  lemma FirstRuns(status: Oracle, c: Chain, cwd: string, launched: seq<Launch>)
    requires ChainOk(c)
    ensures var dir := Enter(cwd, c.segments[0].dirs);
      assert SegmentOk(c.segments[0]);
      var all := launched + Launches(c.segments[0].cmds, false, dir);
      var last := ListFrom(status, c.segments[1..], c.ops, Progress(dir, all, status(all)));
      EvalList(status, c, cwd, launched) == Status(last.retval, last.launched)
  {
    assert SegmentOk(c.segments[0]);
    DueSegment(status, And, c.segments[0].dirs, c.segments[0].cmds, Progress(cwd, launched, 0));
    hide ListSegment, ListFrom, Enter, Launches, SegmentOk;
  }

  // ---------- when they do not ----------

  ghost function Always(v: int): Oracle {
    (launched: seq<Launch>) => v
  }

  /** Whether a segment starts something when the status before it is v. */
  ghost predicate Restarts(op: Node, seg: Segment, v: int) {
    GoesOn(op, v) || (v == 0 && seg.dirs != [])
  }

  /** When every command returns v, a segment leaves v behind and starts its pipe if it restarts. */
  lemma {:induction false} SegmentGrows(v: int, op: Node, dirs: seq<string>, cmds: seq<Node>, st: Progress)
    requires |cmds| > 0 && forall i :: 0 <= i < |cmds| ==> cmds[i].Command?
    requires st.retval == v || GoesOn(op, st.retval)
    ensures var r := ListSegment(Always(v), op, dirs, cmds, st);
      && r.retval == v && |r.launched| >= |st.launched|
      && (Restarts(op, Segment(dirs, cmds), st.retval) ==> |r.launched| > |st.launched|)
    decreases |dirs|
  {
    if GoesOn(op, st.retval) {
      DueSegment(Always(v), op, dirs, cmds, st);
      LaunchAt(cmds, false, Enter(st.dir, dirs), 0);
    } else if dirs != [] {
      SegmentGrows(v, And, dirs[1..], cmds, st);
    }
  }

  lemma {:induction false} ListGrows(v: int, segments: seq<Segment>, ops: seq<Node>, st: Progress, k: nat)
    requires |segments| == |ops| && forall i :: 0 <= i < |segments| ==> SegmentOk(segments[i])
    requires st.retval == v
    ensures var r := ListFrom(Always(v), segments, ops, st);
      && |r.launched| >= |st.launched|
      && (k < |ops| && Restarts(ops[k], segments[k], v) ==> |r.launched| > |st.launched|)
    decreases |ops|
  {
    if ops != [] {
      var seg := segments[0];
      assert SegmentOk(seg);
      SegmentGrows(v, ops[0], seg.dirs, seg.cmds, st);
      var next := ListSegment(Always(v), ops[0], seg.dirs, seg.cmds, st);
      assert Segment(seg.dirs, seg.cmds) == seg;
      hide ListSegment, Restarts, SegmentOk;
      ListGrows(v, segments[1..], ops[1..], next, if k > 0 then k - 1 else |ops|);
    }
  }

  /** Stopped at once by right-nested evaluation, started again by the list. */
  lemma RestartDisagrees(c: Chain, cwd: string, launched: seq<Launch>, v: int, k: nat)
    requires ChainOk(c) && k < |c.ops| && !GoesOn(c.ops[0], v) && Restarts(c.ops[k], c.segments[k + 1], v)
    ensures |Eval(Always(v), c, cwd, launched).launched| < |EvalList(Always(v), c, cwd, launched).launched|
  {
    assert SegmentOk(c.segments[0]);
    var dir := Enter(cwd, c.segments[0].dirs);
    var all := launched + Launches(c.segments[0].cmds, false, dir);
    FirstRuns(Always(v), c, cwd, launched);
    ListGrows(v, c.segments[1..], c.ops, Progress(dir, all, v), k);
    hide EvalList, ListFrom, Restarts, Enter, Launches, SegmentOk;
  }

  lemma OtherDisagrees(c: Chain, cwd: string, launched: seq<Launch>)
    requires ChainOk(c) && !IsPlain(c)
    ensures exists status: Oracle :: Eval(status, c, cwd, launched) != EvalList(status, c, cwd, launched)
  {
    var v, k := RestartOf(c);
    RestartDisagrees(c, cwd, launched, v, k);
    hide Eval, EvalList, Always;
  }

  /** A list that is not plain can be stopped in such a way that something restarts it. */
  lemma RestartOf(c: Chain) returns (v: int, k: nat)
    requires ChainOk(c) && !IsPlain(c)
    ensures k < |c.ops| && !GoesOn(c.ops[0], v) && Restarts(c.ops[k], c.segments[k + 1], v)
  {
    if i :| 0 <= i < |c.ops| && c.ops[i] != c.ops[0] {
      v, k := if c.ops[0] == And then 1 else 0, i;
    } else {
      var i :| 0 <= i < |c.ops| && c.ops[i] == Or;
      var j :| 1 <= j < |c.segments| && c.segments[j].dirs != [];
      v, k := 0, j - 1;
    }
  }

  /** Right-nested evaluation agrees with AND-OR lists, whatever the processes return, exactly on
      plain lists. */
  lemma AgreesIffPlain(c: Chain)
    requires ChainOk(c)
    ensures IsPlain(c) <==>
      forall status: Oracle, cwd, launched :: Eval(status, c, cwd, launched) == EvalList(status, c, cwd, launched)
  {
    hide Eval, EvalList, IsPlain;
    if IsPlain(c) {
      forall status: Oracle, cwd, launched
        ensures Eval(status, c, cwd, launched) == EvalList(status, c, cwd, launched)
      {
        PlainAgrees(status, c, cwd, launched);
        FirstRuns(status, c, cwd, launched);
      }
    } else {
      OtherDisagrees(c, ".", []);
    }
  }

  /** So running anything parsed whose directory changes lead gives what section 2.9.3 asks for,
      whatever the processes return, exactly if its chain is plain. */
  lemma ParsedAgreesIffPlain(tokens: seq<string>) returns (c: Chain)
    requires ParseTokens(tokens).Some? && ChdirsLead(ParseTokens(tokens).value)
    ensures IsChainOf(c, ParseTokens(tokens).value)
    ensures IsPlain(c) ==> forall status: Oracle ::
      RunFrom(status, ParseTokens(tokens).value, false, ".", [], []) == EvalList(status, c, ".", [])
    ensures !IsPlain(c) ==> exists status: Oracle ::
      RunFrom(status, ParseTokens(tokens).value, false, ".", [], []) != EvalList(status, c, ".", [])
  {
    ParsedIsWellFormed(tokens);
    var nodes := ParseTokens(tokens).value;
    c := ChainExists(nodes);
    hide ParseTokens, WellFormed, ChdirsLead, RunFrom, Eval, EvalList, IsPlain;
    forall status: Oracle
      ensures RunFrom(status, nodes, false, ".", [], []) == Eval(status, c, ".", [])
    {
      RunRefinesEval(status, c, ".", []);
    }
    AgreesIffPlain(c);
    if !IsPlain(c) {
      OtherDisagrees(c, ".", []);
    }
  }

  /** One operator is not enough: in a || cd d && b the list starts b when a succeeds; run does not. */
  lemma ChdirAfterOr(a: Node, dir: string, b: Node, cwd: string)
    requires a.Command? && b.Command?
    ensures var nodes := [a, Or, Chdir(Some(dir)), And, b];
      var c := Chain([Segment([], [a]), Segment([dir], [b])], [Or]);
      var started := [LaunchOf(a, false, cwd)];
      && IsChainOf(c, nodes)
      && RunFrom(Always(0), nodes, false, cwd, [], []) == Status(0, started)
      && EvalList(Always(0), c, cwd, []) == Status(0, started + [LaunchOf(b, false, cwd)])
  {
    var first, second := Segment([], [a]), Segment([dir], [b]);
    var c, rest := Chain([first, second], [Or]), Chain([second], []);
    var here, there := LaunchOf(a, false, cwd), LaunchOf(b, false, cwd);
    hide LaunchOf, JoinPath;
    assert SegmentOk(first) && SegmentOk(second) && Rest(c) == rest;
    assert ChainOk(c) && Flatten(c) == [a] + ([Or] + Flatten(rest))
        && Flatten(rest) == [Chdir(Some(dir)), And] + [b] by {
      OneCommand(a);
      OneChdir(dir, b);
      hide SegmentNodes;
    }
    RunRefinesEval(Always(0), c, cwd, []);
    OneLaunch(a, cwd);
    OneLaunch(b, cwd);
    assert [] + [here] == [here];
    FirstRuns(Always(0), c, cwd, []);
    ChdirSkipped(dir, b, Progress(cwd, [here], 0));
    assert c.segments[1..] == [second] && [second][1..] == [] && c.ops[1..] == [];
  }

  lemma OneLaunch(cmd: Node, cwd: string)
    requires cmd.Command?
    ensures Launches([cmd], false, cwd) == [LaunchOf(cmd, false, cwd)]
  {
  }

  lemma OneChdir(dir: string, cmd: Node)
    ensures SegmentNodes(Segment([dir], [cmd])) == [Chdir(Some(dir)), And] + [cmd]
  {
    assert [dir][1..] == [];
    assert DirNodes([dir]) == [Chdir(Some(dir)), And] + DirNodes([]);
    assert DirNodes([]) == [] && PipeNodes([cmd]) == [cmd];
  }

  /** After a success a directory change behind || is skipped, and what follows it is not. */
  lemma ChdirSkipped(dir: string, cmd: Node, st: Progress)
    requires cmd.Command? && st.retval == 0
    ensures ListSegment(Always(0), Or, [dir], [cmd], st) ==
      Progress(st.dir, st.launched + [LaunchOf(cmd, false, st.dir)], 0)
  {
    OneLaunch(cmd, st.dir);
    hide Launches, LaunchOf;
    assert [dir][1..] == [];
  }
}
