/** Running a parsed pipeline: the executor's loop, the right-nested short-circuit evaluator
    it refines, and exactly which pipelines that covers. */
module ShellRun {
  import opened ShellParser
  import opened ShellGrammar
  import opened Wrappers

  // ---------- processes ----------

  datatype Source = FromTerminal | FromPrevious | FromFile(path: string)

  /** One started process: what it runs, where its streams go, and in which directory
      (None: the caller's own). */
  datatype Launch = Launch(argv: seq<string>, stdin: Source, stdout: Stream, stderr: Stream,
                           envVars: map<string, string>, cwd: Option<string>)

  /** The exit status of the latest of the processes started so far. */
  type Oracle = seq<Launch> -> int

  datatype Error = IndexError | AssertionError | TypeError

  /** How run ends: with a status, by falling out of its loop, or with an exception. */
  datatype Outcome =
    | Status(retval: int, launched: seq<Launch>)
    | NoStatus(launched: seq<Launch>)
    | Raised(error: Error, launched: seq<Launch>)

  function JoinPath(a: string, b: string): string {
    if b != [] && b[0] == '/' then b
    else if a == [] || a[|a| - 1] == '/' then a + b
    else a + "/" + b
  }

  function ProcCwd(cwd: string): Option<string> {
    if cwd == "." then None else Some(cwd)
  }

  function LaunchOf(cmd: Node, piped: bool, cwd: string): Launch
    requires cmd.Command?
  {
    Launch(cmd.argv,
           if piped then FromPrevious else if cmd.stdin.File? then FromFile(cmd.stdin.path) else FromTerminal,
           cmd.stdout, cmd.stderr, cmd.envVars, ProcCwd(cwd))
  }

  // ---------- the status of a pipe ----------

  ghost function LastStatus(statuses: seq<int>): int {
    if statuses == [] then 0 else statuses[|statuses| - 1]
  }

  /** Wait for every process of a pipe. Scanning for a failure before returning the last
      status makes no difference: the result is the last command's status. */
  method ExecPipedCommands(commands: seq<int>) returns (retval: int)
    ensures retval == LastStatus(commands)
  {
    var retvals: seq<int> := [];
    for i := 0 to |commands|
      invariant retvals == commands[..i]
    {
      retvals := retvals + [commands[i]];
    }
    retval := 0;
    for i := 0 to |retvals|
      invariant retval == 0 && forall j :: 0 <= j < i ==> retvals[j] == 0
    {
      if retvals[i] != 0 {
        retval := retvals[|retvals| - 1];
        break;
      }
    }
  }

  // ---------- the executor ----------

  /** The loop of run from a given point: the nodes left, whether the next command is at the
      receiving end of a pipe, the directory, the statuses of the pipe so far, all launches. */
  ghost function RunFrom(status: Oracle, nodes: seq<Node>, inPipe: bool, cwd: string,
                         piped: seq<int>, launched: seq<Launch>): Outcome
    decreases |nodes|
  {
    if nodes == [] then NoStatus(launched)
    else if nodes[0].Chdir? then
      if |nodes| < 2 then Raised(IndexError, launched)
      else if nodes[1] != And then Raised(AssertionError, launched)
      else if nodes[0].dir.None? then Raised(TypeError, launched)
      else RunFrom(status, nodes[2..], inPipe, JoinPath(cwd, nodes[0].dir.value), piped, launched)
    else if !nodes[0].Command? then Raised(AssertionError, launched)
    else
      var launched' := launched + [LaunchOf(nodes[0], inPipe, cwd)];
      var piped' := piped + [status(launched')];
      var retval := LastStatus(piped');
      if |nodes| == 1 then Status(retval, launched')
      else match nodes[1]
        case Pipe => RunFrom(status, nodes[2..], true, cwd, piped', launched')
        case Or =>
          if retval == 0 then Status(retval, launched')
          else RunFrom(status, nodes[2..], false, cwd, [], launched')
        case And =>
          if retval != 0 then Status(retval, launched')
          else RunFrom(status, nodes[2..], false, cwd, [], launched')
        case _ => RunFrom(status, nodes[2..], inPipe, cwd, piped', launched')
  }

  method Run(status: Oracle, pipeline0: seq<Node>) returns (r: Outcome)
    ensures r == RunFrom(status, pipeline0, false, ".", [], [])
  {
    var pipeline, inPipe, cwd := pipeline0, false, ".";
    var piped: seq<int>, launched: seq<Launch> := [], [];
    while pipeline != []
      invariant RunFrom(status, pipeline0, false, ".", [], [])
             == RunFrom(status, pipeline, inPipe, cwd, piped, launched)
      decreases |pipeline|
    {
      var node := pipeline[0];
      ghost var nodes := pipeline;
      pipeline := pipeline[1..];
      if node.Chdir? {
        if pipeline == [] {
          return Raised(IndexError, launched);
        }
        var nextOp := pipeline[0];
        pipeline := pipeline[1..];
        if nextOp != And {
          return Raised(AssertionError, launched);
        }
        if node.dir.None? {
          return Raised(TypeError, launched);
        }
        cwd := JoinPath(cwd, node.dir.value);
        assert pipeline == nodes[2..];
        continue;
      }
      if !node.Command? {
        return Raised(AssertionError, launched);
      }
      launched := launched + [LaunchOf(node, inPipe, cwd)];
      piped := piped + [status(launched)];
      if pipeline == [] {
        var retval := ExecPipedCommands(piped);
        return Status(retval, launched);
      }
      var nextNode := pipeline[0];
      pipeline := pipeline[1..];
      assert pipeline == nodes[2..];
      if nextNode.Pipe? {
        inPipe := true;
      } else if nextNode.Or? {
        var thisRetval := ExecPipedCommands(piped);
        if thisRetval == 0 {
          return Status(thisRetval, launched);
        }
        inPipe, piped := false, [];
      } else if nextNode.And? {
        var thisRetval := ExecPipedCommands(piped);
        if thisRetval != 0 {
          return Status(thisRetval, launched);
        }
        inPipe, piped := false, [];
      }
    }
    return NoStatus(launched);
  }

  // ---------- and/or chains of pipes ----------

  /** Directory changes, then one pipe of commands. */
  datatype Segment = Segment(dirs: seq<string>, cmds: seq<Node>)

  /** segments[0] ops[0] segments[1] ops[1] ... */
  datatype Chain = Chain(segments: seq<Segment>, ops: seq<Node>)

  ghost predicate SegmentOk(seg: Segment) {
    |seg.cmds| > 0 && forall i :: 0 <= i < |seg.cmds| ==> seg.cmds[i].Command?
  }

  ghost predicate ChainOk(c: Chain) {
    && |c.segments| == |c.ops| + 1
    && (forall i :: 0 <= i < |c.segments| ==> SegmentOk(c.segments[i]))
    && (forall i :: 0 <= i < |c.ops| ==> c.ops[i] == And || c.ops[i] == Or)
  }

  ghost function DirNodes(dirs: seq<string>): seq<Node> {
    if dirs == [] then [] else [Chdir(Some(dirs[0])), And] + DirNodes(dirs[1..])
  }

  ghost function PipeNodes(cmds: seq<Node>): seq<Node> {
    if cmds == [] then [] else if |cmds| == 1 then cmds else [cmds[0], Pipe] + PipeNodes(cmds[1..])
  }

  ghost function SegmentNodes(seg: Segment): seq<Node> {
    DirNodes(seg.dirs) + PipeNodes(seg.cmds)
  }

  ghost function Flatten(c: Chain): seq<Node>
    requires ChainOk(c)
    decreases |c.ops|
  {
    SegmentNodes(c.segments[0]) + if c.ops == [] then [] else [c.ops[0]] + Flatten(Rest(c))
  }

  ghost function Rest(c: Chain): (r: Chain)
    requires ChainOk(c) && c.ops != []
    ensures ChainOk(r) && |r.ops| < |c.ops|
  {
    Chain(c.segments[1..], c.ops[1..])
  }

  ghost function Enter(cwd: string, dirs: seq<string>): string
    decreases |dirs|
  {
    if dirs == [] then cwd else Enter(JoinPath(cwd, dirs[0]), dirs[1..])
  }

  /** The processes of one pipe: only the first reads its own input. */
  ghost function Launches(cmds: seq<Node>, piped: bool, cwd: string): seq<Launch>
    requires forall i :: 0 <= i < |cmds| ==> cmds[i].Command?
    decreases |cmds|
  {
    if cmds == [] then [] else [LaunchOf(cmds[0], piped, cwd)] + Launches(cmds[1..], true, cwd)
  }

  ghost predicate GoesOn(op: Node, retval: int) {
    if op == And then retval == 0 else retval != 0
  }

  /** Right-nested evaluation: the first pipe decides between returning its status at once
      and the value of all the rest. The directory carries over. */
  ghost function Eval(status: Oracle, c: Chain, cwd: string, launched: seq<Launch>): Outcome
    requires ChainOk(c)
    decreases |c.ops|
  {
    var dir := Enter(cwd, c.segments[0].dirs);
    var all := launched + Launches(c.segments[0].cmds, false, dir);
    if c.ops == [] || !GoesOn(c.ops[0], status(all)) then Status(status(all), all)
    else Eval(status, Rest(c), dir, all)
  }

  /** Joining paths is associative, so entering directories one by one is entering their
      joint path at once. */
  lemma JoinAssociative(a: string, b: string, c: string)
    ensures JoinPath(JoinPath(a, b), c) == JoinPath(a, JoinPath(b, c))
  {
    hide JoinPath;
    if c != [] && c[0] == '/' {
      JoinAbsolute(JoinPath(a, b), c);
      JoinAbsolute(b, c);
      JoinAbsolute(a, c);
    } else if b == [] {
      JoinAfterSlash(a, c);
    } else if b[0] == '/' {
      JoinAbsolute(a, b);
      JoinKeepsFirst(b, c);
      JoinAbsolute(a, JoinPath(b, c));
    } else {
      JoinRelative(a, b, c);
    }
  }

  lemma JoinAbsolute(a: string, b: string)
    requires b != [] && b[0] == '/'
    ensures JoinPath(a, b) == b
  {
  }

  lemma JoinKeepsFirst(b: string, c: string)
    requires b != [] && (c == [] || c[0] != '/')
    ensures JoinPath(b, c) != [] && JoinPath(b, c)[0] == b[0]
  {
  }

  lemma JoinRelative(a: string, b: string, c: string)
    requires b != [] && b[0] != '/' && (c == [] || c[0] != '/')
    ensures JoinPath(JoinPath(a, b), c) == JoinPath(a, JoinPath(b, c))
  {
    var front := if a == [] || a[|a| - 1] == '/' then a else a + "/";
    var bc := JoinPath(b, c);
    JoinKeepsFirst(b, c);
    assert JoinPath(a, b) == front + b && JoinPath(a, bc) == front + bc;
    JoinLonger(front, b, c);
  }

  lemma JoinAfterSlash(a: string, c: string)
    requires c == [] || c[0] != '/'
    ensures JoinPath(JoinPath(a, []), c) == JoinPath(a, JoinPath([], c))
  {
    assert JoinPath([], c) == c;
    if a != [] && a[|a| - 1] != '/' {
      assert a + "/" + [] == a + "/";
    } else {
      assert a + [] == a;
    }
  }

  lemma JoinLonger(front: string, b: string, c: string)
    requires b != [] && (c == [] || c[0] != '/')
    ensures JoinPath(front + b, c) == front + JoinPath(b, c)
  {
    var ab := front + b;
    assert ab[|ab| - 1] == b[|b| - 1];
    if b[|b| - 1] == '/' {
      assert ab + c == front + (b + c);
    } else {
      assert ab + "/" + c == front + (b + "/" + c);
    }
  }

  lemma {:induction false} EnterTwo(cwd: string, dir1: string, dir2: string, dirs: seq<string>)
    ensures Enter(cwd, [dir1, dir2] + dirs) == Enter(cwd, [JoinPath(dir1, dir2)] + dirs)
  {
    JoinAssociative(cwd, dir1, dir2);
    hide JoinPath;
    assert ([dir1, dir2] + dirs)[1..] == [dir2] + dirs && ([dir2] + dirs)[1..] == dirs;
    assert ([JoinPath(dir1, dir2)] + dirs)[1..] == dirs;
  }

  /** A segment's commands send their output down a pipe exactly when another one follows. */
  ghost predicate SegmentPipes(seg: Segment) {
    forall i :: 0 <= i < |seg.cmds| && seg.cmds[i].Command? ==>
      (seg.cmds[i].stdout == ToPipe <==> i + 1 < |seg.cmds|)
  }

  ghost predicate PipesMatch(c: Chain) {
    forall k :: 0 <= k < |c.segments| ==> SegmentPipes(c.segments[k])
  }

  /** Each process of a pipe runs its own command with its own error stream and environment in
      the pipe's directory; it reads from the one before it, and only the first its own input. */
  lemma {:induction false} LaunchAt(cmds: seq<Node>, piped: bool, cwd: string, i: nat)
    requires (forall k :: 0 <= k < |cmds| ==> cmds[k].Command?) && i < |cmds|
    ensures |Launches(cmds, piped, cwd)| == |cmds|
    ensures var l := Launches(cmds, piped, cwd)[i];
      && l.argv == cmds[i].argv && l.stdout == cmds[i].stdout && l.stderr == cmds[i].stderr
      && l.envVars == cmds[i].envVars && (l.cwd == None <==> cwd == ".") && (l.cwd.Some? ==> l.cwd.value == cwd)
      && (l.stdin == FromPrevious <==> i > 0 || piped)
      && (i == 0 && !piped && cmds[i].stdin.File? ==> l.stdin == FromFile(cmds[i].stdin.path))
      && (i == 0 && !piped && !cmds[i].stdin.File? ==> l.stdin == FromTerminal)
    decreases |cmds|
  {
    if i > 0 {
      LaunchAt(cmds[1..], true, cwd, i - 1);
    } else if |cmds| > 1 {
      LaunchAt(cmds[1..], true, cwd, 0);
    }
  }

  /** In a parsed chain the processes of a pipe are connected: one writes to a pipe iff the
      next one reads from its predecessor. */
  lemma PipesConnect(c: Chain, k: nat, cwd: string, i: nat)
    requires ChainOk(c) && PipesMatch(c) && k < |c.segments| && i < |c.segments[k].cmds|
    ensures SegmentOk(c.segments[k])
    ensures var ls := Launches(c.segments[k].cmds, false, cwd);
      |ls| == |c.segments[k].cmds| && (ls[i].stdout == ToPipe <==> i + 1 < |ls| && ls[i + 1].stdin == FromPrevious)
  {
    var cmds := c.segments[k].cmds;
    assert SegmentOk(c.segments[k]) && SegmentPipes(c.segments[k]);
    LaunchAt(cmds, false, cwd, i);
    if i + 1 < |cmds| {
      LaunchAt(cmds, false, cwd, i + 1);
    }
  }

  // ---------- run refines the evaluator ----------

  lemma {:induction false} DirsRun(status: Oracle, dirs: seq<string>, rest: seq<Node>, inPipe: bool, cwd: string,
                                   piped: seq<int>, launched: seq<Launch>)
    ensures RunFrom(status, DirNodes(dirs) + rest, inPipe, cwd, piped, launched)
         == RunFrom(status, rest, inPipe, Enter(cwd, dirs), piped, launched)
    decreases |dirs|
  {
    if dirs == [] {
      assert DirNodes(dirs) + rest == rest;
    } else {
      var nodes := DirNodes(dirs) + rest;
      assert nodes[0] == Chdir(Some(dirs[0])) && nodes[1] == And;
      assert nodes[2..] == DirNodes(dirs[1..]) + rest;
      DirsRun(status, dirs[1..], rest, inPipe, JoinPath(cwd, dirs[0]), piped, launched);
    }
  }

  /** A pipe of commands, run up to the decision its last status brings. */
  lemma {:induction false} PipeRuns(status: Oracle, cmds: seq<Node>, rest: seq<Node>, inPipe: bool, cwd: string,
                                    piped: seq<int>, launched: seq<Launch>)
    requires |cmds| > 0 && forall i :: 0 <= i < |cmds| ==> cmds[i].Command?
    requires rest == [] || rest[0] == And || rest[0] == Or
    ensures var all := launched + Launches(cmds, inPipe, cwd);
      RunFrom(status, PipeNodes(cmds) + rest, inPipe, cwd, piped, launched) ==
        if rest == [] || !GoesOn(rest[0], status(all)) then Status(status(all), all)
        else RunFrom(status, rest[1..], false, cwd, [], all)
    decreases |cmds|
  {
    var nodes := PipeNodes(cmds) + rest;
    var launched' := launched + [LaunchOf(cmds[0], inPipe, cwd)];
    var piped' := piped + [status(launched')];
    assert nodes[0] == cmds[0];
    if |cmds| == 1 {
      assert launched + Launches(cmds, inPipe, cwd) == launched';
      if rest != [] {
        assert nodes[1] == rest[0] && nodes[2..] == rest[1..];
      }
    } else {
      assert nodes[1] == Pipe && nodes[2..] == PipeNodes(cmds[1..]) + rest;
      PipeRuns(status, cmds[1..], rest, true, cwd, piped', launched');
      assert launched' + Launches(cmds[1..], true, cwd) == launched + Launches(cmds, inPipe, cwd);
    }
  }

  /** Running a flattened chain is evaluating it: same status, same processes, in the same
      order, with the same streams and directories. */
  lemma {:induction false} RunRefinesEval(status: Oracle, c: Chain, cwd: string, launched: seq<Launch>)
    requires ChainOk(c)
    ensures RunFrom(status, Flatten(c), false, cwd, [], launched) == Eval(status, c, cwd, launched)
    decreases |c.ops|
  {
    var seg := c.segments[0];
    assert SegmentOk(seg);
    var tail := if c.ops == [] then [] else [c.ops[0]] + Flatten(Rest(c));
    var pipe := PipeNodes(seg.cmds);
    assert Flatten(c) == DirNodes(seg.dirs) + (pipe + tail);
    var dir := Enter(cwd, seg.dirs);
    DirsRun(status, seg.dirs, pipe + tail, false, cwd, [], launched);
    PipeRuns(status, seg.cmds, tail, false, dir, [], launched);
    if c.ops != [] {
      assert tail[1..] == Flatten(Rest(c));
      RunRefinesEval(status, Rest(c), dir, launched + Launches(seg.cmds, false, dir));
    }
  }

  // ---------- which parsed pipelines are chains ----------

  /** Every directory change names a directory, begins an and/or segment (no pipe runs into
      it) and is followed by a command. */
  ghost predicate ChdirsLead(nodes: seq<Node>) {
    forall i :: 0 <= i < |nodes| && nodes[i].Chdir? ==>
      nodes[i].dir.Some? && i + 1 < |nodes| && (i == 0 || nodes[i - 1] != Pipe)
  }

  lemma TailOk(nodes: seq<Node>)
    requires WellFormed(nodes) && ChdirsLead(nodes) && |nodes| >= 2
    ensures |nodes| >= 3 && WellFormed(nodes[2..]) && ChdirsLead(nodes[2..])
    ensures nodes[1] == Pipe ==> !nodes[2].Chdir?
    ensures nodes[0].Command? ==> (nodes[0].stdout == ToPipe <==> nodes[1] == Pipe)
    ensures IsOp(nodes[1]) && (nodes[0].Command? || (nodes[0].Chdir? && nodes[0].dir.Some? && nodes[1] == And))
  {
    var tail := nodes[2..];
    assert NodeOkAt(nodes, 0) && NodeOkAt(nodes, 1);
    hide CommandOk;
    forall i | 0 <= i < |tail|
      ensures NodeOkAt(tail, i)
    {
      assert NodeOkAt(nodes, i + 2);
    }
    forall i | 0 <= i < |tail| && tail[i].Chdir?
      ensures tail[i].dir.Some? && i + 1 < |tail| && (i == 0 || tail[i - 1] != Pipe)
    {
      assert nodes[i + 2].Chdir?;
      assert i > 0 ==> tail[i - 1] == nodes[i + 1];
    }
  }

  ghost predicate IsChainOf(c: Chain, nodes: seq<Node>) {
    ChainOk(c) && Flatten(c) == nodes
  }

  /** What the grammar allows at the head of a chain's first segment. */
  ghost function Prepend(seg: Segment, op: Node, c: Chain): Chain {
    Chain([seg] + c.segments, [op] + c.ops)
  }

  lemma PrependFlattens(cmd: Node, op: Node, c: Chain)
    requires cmd.Command? && (op == And || op == Or) && ChainOk(c)
    ensures IsChainOf(Prepend(Segment([], [cmd]), op, c), [cmd, op] + Flatten(c))
  {
    var seg := Segment([], [cmd]);
    var all := Prepend(seg, op, c);
    assert SegmentOk(seg);
    PrependOk(seg, op, c);
    OneCommand(cmd);
    hide ChainOk, SegmentNodes;
    assert [cmd] + ([op] + Flatten(c)) == [cmd, op] + Flatten(c);
  }

  lemma OneCommand(cmd: Node)
    ensures SegmentNodes(Segment([], [cmd])) == [cmd]
  {
  }

  lemma PrependOk(seg: Segment, op: Node, c: Chain)
    requires SegmentOk(seg) && (op == And || op == Or) && ChainOk(c)
    ensures ChainOk(Prepend(seg, op, c)) && Rest(Prepend(seg, op, c)) == c
  {
    hide SegmentOk;
    var all := Prepend(seg, op, c);
    assert forall i :: 1 <= i < |all.segments| ==> all.segments[i] == c.segments[i - 1];
    assert forall i :: 1 <= i < |all.ops| ==> all.ops[i] == c.ops[i - 1];
  }

  ghost function WithFirst(c: Chain, seg: Segment): Chain
    requires ChainOk(c)
  {
    c.(segments := [seg] + c.segments[1..])
  }

  /** Replacing the first segment by one with more nodes in front. */
  lemma WithFirstFlattens(c: Chain, seg: Segment, extra: seq<Node>)
    requires ChainOk(c) && SegmentOk(seg)
    requires SegmentNodes(seg) == extra + SegmentNodes(c.segments[0])
    ensures IsChainOf(WithFirst(c, seg), extra + Flatten(c))
  {
    hide SegmentNodes, SegmentOk;
    var wide := WithFirst(c, seg);
    assert forall i :: 1 <= i < |wide.segments| ==> wide.segments[i] == c.segments[i];
    assert ChainOk(wide);
    if c.ops != [] {
      assert Rest(wide) == Rest(c);
    }
  }

  lemma WidenFlattens(cmd: Node, c: Chain)
    requires cmd.Command? && ChainOk(c) && c.segments[0].dirs == []
    ensures IsChainOf(WithFirst(c, Segment([], [cmd] + c.segments[0].cmds)), [cmd, Pipe] + Flatten(c))
  {
    hide Flatten;
    var seg := Segment([], [cmd] + c.segments[0].cmds);
    assert SegmentOk(c.segments[0]);
    assert seg.cmds[1..] == c.segments[0].cmds;
    WithFirstFlattens(c, seg, [cmd, Pipe]);
  }

  lemma EnterFlattens(dir: string, c: Chain)
    requires ChainOk(c)
    ensures IsChainOf(WithFirst(c, c.segments[0].(dirs := [dir] + c.segments[0].dirs)),
                      [Chdir(Some(dir)), And] + Flatten(c))
  {
    hide Flatten;
    var seg := c.segments[0].(dirs := [dir] + c.segments[0].dirs);
    assert SegmentOk(c.segments[0]);
    assert seg.dirs[1..] == c.segments[0].dirs;
    WithFirstFlattens(c, seg, [Chdir(Some(dir)), And]);
  }

  lemma PrependPipes(cmd: Node, op: Node, c: Chain)
    requires cmd.Command? && cmd.stdout != ToPipe && PipesMatch(c)
    ensures PipesMatch(Prepend(Segment([], [cmd]), op, c))
  {
    var all := Prepend(Segment([], [cmd]), op, c);
    assert SegmentPipes(Segment([], [cmd]));
    hide SegmentPipes;
    assert forall k :: 1 <= k < |all.segments| ==> all.segments[k] == c.segments[k - 1];
  }

  lemma WithFirstPipes(c: Chain, seg: Segment)
    requires ChainOk(c) && PipesMatch(c) && SegmentPipes(seg)
    ensures PipesMatch(WithFirst(c, seg))
  {
    hide SegmentPipes, SegmentOk;
    var wide := WithFirst(c, seg);
    assert forall k :: 1 <= k < |wide.segments| ==> wide.segments[k] == c.segments[k];
  }

  lemma WidenPipes(cmd: Node, c: Chain)
    requires cmd.Command? && cmd.stdout == ToPipe && ChainOk(c) && PipesMatch(c)
    ensures PipesMatch(WithFirst(c, Segment([], [cmd] + c.segments[0].cmds)))
  {
    var seg := Segment([], [cmd] + c.segments[0].cmds);
    assert SegmentOk(c.segments[0]) && SegmentPipes(c.segments[0]);
    assert forall i :: 1 <= i < |seg.cmds| ==> seg.cmds[i] == c.segments[0].cmds[i - 1];
    WithFirstPipes(c, seg);
  }

  lemma EnterPipes(dir: string, c: Chain)
    requires ChainOk(c) && PipesMatch(c)
    ensures PipesMatch(WithFirst(c, c.segments[0].(dirs := [dir] + c.segments[0].dirs)))
  {
    assert SegmentPipes(c.segments[0]);
    WithFirstPipes(c, c.segments[0].(dirs := [dir] + c.segments[0].dirs));
  }

  lemma OneUnitChain(nodes: seq<Node>) returns (c: Chain)
    requires |nodes| == 1 && WellFormed(nodes) && ChdirsLead(nodes)
    ensures IsChainOf(c, nodes) && PipesMatch(c) && c.segments[0].dirs == []
  {
    assert NodeOkAt(nodes, 0);
    hide CommandOk;
    c := Chain([Segment([], nodes)], []);
    assert nodes[0].Command?;
    assert SegmentOk(c.segments[0]);
    assert Flatten(c) == DirNodes([]) + PipeNodes(nodes) == nodes;
  }

  lemma {:induction false} ChainExists(nodes: seq<Node>) returns (c: Chain)
    requires WellFormed(nodes) && ChdirsLead(nodes)
    ensures IsChainOf(c, nodes) && PipesMatch(c)
    ensures nodes[0].Command? ==> c.segments[0].dirs == []
    decreases |nodes|
  {
    if |nodes| == 1 {
      c := OneUnitChain(nodes);
    } else {
      TailOk(nodes);
      hide WellFormed, ChdirsLead, Flatten, ChainOk, PipesMatch;
      var rest := ChainExists(nodes[2..]);
      assert nodes == [nodes[0], nodes[1]] + nodes[2..];
      if nodes[0].Chdir? {
        EnterFlattens(nodes[0].dir.value, rest);
        EnterPipes(nodes[0].dir.value, rest);
        c := WithFirst(rest, rest.segments[0].(dirs := [nodes[0].dir.value] + rest.segments[0].dirs));
      } else if nodes[1] == Pipe {
        WidenFlattens(nodes[0], rest);
        WidenPipes(nodes[0], rest);
        c := WithFirst(rest, Segment([], [nodes[0]] + rest.segments[0].cmds));
      } else {
        PrependFlattens(nodes[0], nodes[1], rest);
        PrependPipes(nodes[0], nodes[1], rest);
        c := Prepend(Segment([], [nodes[0]]), nodes[1], rest);
      }
    }
  }

  // ---------- only those ----------

  lemma JoinLeads(a: seq<Node>, b: seq<Node>)
    requires ChdirsLead(a) && ChdirsLead(b) && (a == [] || a[|a| - 1] != Pipe)
    ensures ChdirsLead(a + b)
  {
    var all := a + b;
    forall i | 0 <= i < |all| && all[i].Chdir?
      ensures all[i].dir.Some? && i + 1 < |all| && (i == 0 || all[i - 1] != Pipe)
    {
      if i < |a| {
        assert all[i] == a[i] && (i > 0 ==> all[i - 1] == a[i - 1]);
      } else {
        assert all[i] == b[i - |a|] && (i > |a| ==> all[i - 1] == b[i - |a| - 1]);
      }
    }
  }

  lemma {:induction false} DirsLead(dirs: seq<string>)
    ensures ChdirsLead(DirNodes(dirs)) && (dirs != [] ==> DirNodes(dirs)[|DirNodes(dirs)| - 1] == And)
    decreases |dirs|
  {
    if dirs != [] {
      var first := [Chdir(Some(dirs[0])), And];
      DirsLead(dirs[1..]);
      assert ChdirsLead(first);
      hide ChdirsLead;
      JoinLeads(first, DirNodes(dirs[1..]));
    }
  }

  lemma {:induction false} PipesLead(cmds: seq<Node>)
    requires |cmds| > 0 && forall i :: 0 <= i < |cmds| ==> cmds[i].Command?
    ensures var nodes := PipeNodes(cmds);
      (forall i :: 0 <= i < |nodes| ==> !nodes[i].Chdir?) && nodes != [] && nodes[|nodes| - 1].Command?
    decreases |cmds|
  {
    if |cmds| > 1 {
      PipesLead(cmds[1..]);
      assert PipeNodes(cmds) == [cmds[0], Pipe] + PipeNodes(cmds[1..]);
    }
  }

  lemma SegmentLeads(seg: Segment)
    requires SegmentOk(seg)
    ensures ChdirsLead(SegmentNodes(seg))
    ensures SegmentNodes(seg) != [] && SegmentNodes(seg)[|SegmentNodes(seg)| - 1] != Pipe
  {
    DirsLead(seg.dirs);
    PipesLead(seg.cmds);
    assert ChdirsLead(PipeNodes(seg.cmds));
    assert seg.dirs == [] ==> DirNodes(seg.dirs) == [];
    hide DirNodes, PipeNodes, ChdirsLead;
    JoinLeads(DirNodes(seg.dirs), PipeNodes(seg.cmds));
  }

  lemma {:induction false} ChainLeads(c: Chain)
    requires ChainOk(c)
    ensures ChdirsLead(Flatten(c))
    decreases |c.ops|
  {
    var seg := c.segments[0];
    SegmentLeads(seg);
    if c.ops == [] {
      assert Flatten(c) == SegmentNodes(seg) + [];
      assert SegmentNodes(seg) + [] == SegmentNodes(seg);
    } else {
      var op := [c.ops[0]];
      ChainLeads(Rest(c));
      assert ChdirsLead(op);
      hide ChdirsLead, SegmentNodes;
      JoinLeads(op, Flatten(Rest(c)));
      JoinLeads(SegmentNodes(seg), op + Flatten(Rest(c)));
    }
  }

  /** A well-formed pipeline is a chain of pipes joined by && and || exactly when its directory
      changes lead: one behind a pipe, unnamed or last belongs to no chain. */
  lemma ChainIffLead(nodes: seq<Node>)
    requires WellFormed(nodes)
    ensures ChdirsLead(nodes) <==> exists c :: IsChainOf(c, nodes)
  {
    if ChdirsLead(nodes) {
      var c := ChainExists(nodes);
      assert IsChainOf(c, nodes);
    }
    hide ChdirsLead, WellFormed;
    forall c | IsChainOf(c, nodes)
      ensures ChdirsLead(nodes)
    {
      ChainLeads(c);
    }
  }

  /** Whatever was parsed, it is an and/or chain of pipes exactly if its directory changes lead, and
      then running it is evaluating that chain right-nested from the current directory. */
  lemma ParsedRunsRightNested(tokens: seq<string>, status: Oracle)
    requires ParseTokens(tokens).Some?
    ensures var nodes := ParseTokens(tokens).value;
      ChdirsLead(nodes) <==> exists c ::
        IsChainOf(c, nodes) && PipesMatch(c) && RunFrom(status, nodes, false, ".", [], []) == Eval(status, c, ".", [])
  {
    ParsedIsWellFormed(tokens);
    var nodes := ParseTokens(tokens).value;
    if ChdirsLead(nodes) {
      var c := ChainExists(nodes);
      RunRefinesEval(status, c, ".", []);
      assert IsChainOf(c, nodes);
    }
    hide WellFormed, ChdirsLead, Eval, RunFrom, ParseTokens, PipesMatch;
    ChainIffLead(nodes);
  }
}
