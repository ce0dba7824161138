/** Exactly which pipelines the shell parser can produce, and a rendering it inverts. */
module ShellGrammar {
  import opened ShellParser
  import opened Wrappers

  predicate IsOp(node: Node) {
    node.Pipe? || node.And? || node.Or?
  }

  ghost predicate EnvOk(envVars: map<string, string>) {
    forall k :: k in envVars ==> IsKey(k) && IsValue(envVars[k])
  }

  /** A command as far as it does not depend on what follows it. */
  ghost predicate CommandOk(c: Node)
    requires c.Command?
  {
    && c.name != "cd" && MatchEnvVar(c.name).None?
    && |c.argv| >= 1 && c.argv[0] == c.name
    && (forall i :: 1 <= i < |c.argv| ==> !IsOperator(c.argv[i]))
    && (c.stdin == Inherit || c.stdin.File?)
    && (c.stderr == Inherit || c.stderr == ToStdout || c.stderr.File?)
    && EnvOk(c.envVars)
  }

  /** A command or directory change, given the operator after it: a command's stdout is a
      pipe iff the operator is; a directory change is followed by && or nothing. */
  ghost predicate UnitOk(unit: Node, next: Option<Node>) {
    match unit
    case Command(_, _, _, stdout, _, _) =>
      CommandOk(unit) && if next == Some(Pipe) then stdout == ToPipe else stdout == Inherit || stdout.File?
    case Chdir(dir) => (next == None || next == Some(And)) && (dir.Some? ==> dir.value != "&&")
    case _ => false
  }

  /** Units at even places, each fitting the operator after it; operators at odd ones. */
  ghost predicate NodeOkAt(nodes: seq<Node>, i: nat)
    requires i < |nodes|
  {
    if i % 2 == 0 then UnitOk(nodes[i], if i + 1 < |nodes| then Some(nodes[i + 1]) else None)
    else IsOp(nodes[i])
  }

  ghost predicate NodesOk(nodes: seq<Node>) {
    forall i :: 0 <= i < |nodes| ==> NodeOkAt(nodes, i)
  }

  /** Cutting after an operator changes nothing for the nodes before the cut. */
  lemma CutAgrees(nodes: seq<Node>, m: nat)
    requires m <= |nodes| && m % 2 == 0
    ensures forall i :: 0 <= i < m ==> (NodeOkAt(nodes[..m], i) <==> NodeOkAt(nodes, i))
  {
    hide UnitOk;
    forall i | 0 <= i < m
      ensures NodeOkAt(nodes[..m], i) <==> NodeOkAt(nodes, i)
    {
      assert i % 2 == 0 ==> i + 1 < m && nodes[..m][i + 1] == nodes[i + 1];
    }
  }

  /** Commands and operators in strict alternation, beginning and ending with a command. */
  ghost predicate WellFormed(nodes: seq<Node>) {
    |nodes| % 2 == 1 && NodesOk(nodes)
  }

  // ---------- everything parsed is well-formed ----------

  /** The command under construction: fine so far, and not yet sent to a pipe. */
  ghost predicate CurrentOk(current: Option<Node>) {
    current.Some? ==> UnitOk(current.value, None)
  }

  ghost predicate ParserOk(p: Parser) {
    && ModeOk(p)
    && |p.nodes| % 2 == 0 && NodesOk(p.nodes)
    && EnvOk(p.envVars) && (!p.mode.Begin? ==> p.envVars == map[])
    && CurrentOk(p.current)
  }

  lemma CommitKeepsNodesOk(nodes: seq<Node>, unit: Node, op: Node)
    requires |nodes| % 2 == 0 && NodesOk(nodes) && UnitOk(unit, Some(op)) && IsOp(op)
    ensures NodesOk(nodes + [unit, op])
  {
    hide UnitOk;
    var more := nodes + [unit, op];
    assert more[..|nodes|] == nodes;
    CutAgrees(more, |nodes|);
  }

  lemma LastKeepsNodesOk(nodes: seq<Node>, unit: Node)
    requires |nodes| % 2 == 0 && NodesOk(nodes) && UnitOk(unit, None)
    ensures WellFormed(nodes + [unit])
  {
    hide UnitOk;
    var more := nodes + [unit];
    assert more[..|nodes|] == nodes;
    CutAgrees(more, |nodes|);
  }

  lemma MatchedEnvOk(token: string)
    ensures var m := MatchEnvVar(token); m.Some? ==> IsKey(m.value.0) && IsValue(m.value.1)
  {
  }

  lemma BeginKeepsOk(p: Parser, token: string)
    requires ParserOk(p) && p.mode.Begin? && StepBegin(p, token).Going?
    ensures ParserOk(StepBegin(p, token).p)
  {
    MatchedEnvOk(token);
    hide MatchEnvVar, NodesOk;
  }

  lemma CommandKeepsOk(p: Parser, token: string)
    requires ParserOk(p) && p.mode.InCommand? && StepCommand(p, token).Going?
    ensures ParserOk(StepCommand(p, token).p)
  {
    hide MatchEnvVar, EnvOk;
    var cmd := p.current.value;
    if token == "|" {
      CommitKeepsNodesOk(p.nodes, cmd.(stdout := ToPipe), Pipe);
    } else if token == "&&" {
      CommitKeepsNodesOk(p.nodes, cmd, And);
    } else if token == "||" {
      CommitKeepsNodesOk(p.nodes, cmd, Or);
    }
    hide NodesOk;
  }

  lemma StepKeepsOk(p: Parser, token: string)
    requires ParserOk(p) && Step(p, token).Going?
    ensures ParserOk(Step(p, token).p)
  {
    hide MatchEnvVar, EnvOk;
    match p.mode
    case Begin => BeginKeepsOk(p, token);
    case InCommand => CommandKeepsOk(p, token);
    case InChdir =>
      if token == "&&" {
        CommitKeepsNodesOk(p.nodes, p.current.value, And);
      }
    case _ =>
      hide NodesOk;
  }

  lemma {:induction false} RunKeepsOk(p: Parser, tokens: seq<string>)
    requires ParserOk(p) && Run(p, tokens).Going?
    ensures ParserOk(Run(p, tokens).p)
    decreases |tokens|
  {
    if tokens != [] {
      StepKeepsOk(p, tokens[0]);
      hide ParserOk;
      RunKeepsOk(Step(p, tokens[0]).p, tokens[1..]);
    }
  }

  lemma ParsedIsWellFormed(tokens: seq<string>)
    requires ParseTokens(tokens).Some?
    ensures WellFormed(ParseTokens(tokens).value)
  {
    RunKeepsOk(Start, tokens);
    var p := Run(Start, tokens).p;
    LastKeepsNodesOk(p.nodes, p.current.value);
  }

  // ---------- every well-formed pipeline is parsed from its rendering ----------

  ghost function SomeKey(envVars: map<string, string>): (k: string)
    requires envVars != map[]
    ensures k in envVars
  {
    var k :| k in envVars;
    k
  }

  /** The assignments of a dictionary, in some order. */
  ghost function EnvTokens(envVars: map<string, string>): seq<string> {
    if envVars == map[] then []
    else
      var k := SomeKey(envVars);
      EnvTokens(envVars - {k}) + [EnvToken(k, envVars[k])]
  }

  function InTokens(stdin: Stream): seq<string> {
    if stdin.File? then ["<", stdin.path] else []
  }

  function OutTokens(stdout: Stream): seq<string> {
    if stdout.File? then [">", stdout.path] else []
  }

  function ErrTokens(stderr: Stream): seq<string> {
    if stderr.File? then ["2>", stderr.path] else if stderr == ToStdout then ["2>&1"] else []
  }

  ghost function NodeTokens(node: Node): seq<string> {
    match node
    case Command(_, argv, stdin, stdout, stderr, envVars) =>
      EnvTokens(envVars) + argv + InTokens(stdin) + OutTokens(stdout) + ErrTokens(stderr)
    case Chdir(dir) => ["cd"] + if dir.Some? then [dir.value] else []
    case Pipe => ["|"]
    case And => ["&&"]
    case Or => ["||"]
  }

  ghost function Render(nodes: seq<Node>): seq<string> {
    if nodes == [] then [] else Render(nodes[..|nodes| - 1]) + NodeTokens(nodes[|nodes| - 1])
  }

  lemma {:induction false} RunAppend(p: Parser, s: seq<string>, t: seq<string>)
    requires ModeOk(p)
    ensures Run(p, s).Going? ==> Run(p, s + t) == Run(Run(p, s).p, t)
    decreases |s|
  {
    hide Step;
    if s == [] {
      assert s + t == t;
    } else {
      assert (s + t)[0] == s[0] && (s + t)[1..] == s[1..] + t;
      if Step(p, s[0]).Going? {
        RunAppend(Step(p, s[0]).p, s[1..], t);
      }
    }
  }

  lemma RunOne(p: Parser, token: string)
    requires ModeOk(p)
    ensures Run(p, [token]) == Step(p, token)
  {
  }

  lemma RunNone(p: Parser)
    requires ModeOk(p)
    ensures Run(p, []) == Going(p)
  {
  }

  lemma OneEnvParsed(p: Parser, k: string, v: string)
    requires p.mode.Begin? && p.current.None? && IsKey(k) && IsValue(v)
    ensures Run(p, [EnvToken(k, v)]) == Going(p.(envVars := p.envVars[k := v]))
  {
    hide MatchEnvVar, IsKey, IsValue;
    EnvVarRoundTrip(k, v);
    RunOne(p, EnvToken(k, v));
  }

  lemma {:induction false} EnvParsed(p: Parser, envVars: map<string, string>)
    requires p.mode.Begin? && p.current.None? && EnvOk(envVars)
    ensures Run(p, EnvTokens(envVars)) == Going(p.(envVars := p.envVars + envVars))
    decreases |envVars|
  {
    hide Run, Step, MatchEnvVar, IsKey, IsValue, SomeKey, EnvToken;
    if envVars == map[] {
      assert p.envVars + envVars == p.envVars;
      RunNone(p);
    } else {
      var k := SomeKey(envVars);
      var less := envVars - {k};
      PutBack(p.envVars, envVars, k);
      EnvParsed(p, less);
      var q := p.(envVars := p.envVars + less);
      RunAppend(p, EnvTokens(less), [EnvToken(k, envVars[k])]);
      OneEnvParsed(q, k, envVars[k]);
    }
  }

  lemma PutBack(base: map<string, string>, m: map<string, string>, k: string)
    requires k in m
    ensures (base + (m - {k}))[k := m[k]] == base + m
    ensures |m - {k}| < |m|
  {
    assert (m - {k}).Keys == m.Keys - {k};
    assert |(m - {k}).Keys| < |m.Keys|;
  }

  lemma {:induction false} ArgsParsed(p: Parser, cmd: Node, args: seq<string>)
    requires cmd.Command? && p == Parser(InCommand, map[], Some(cmd), p.nodes)
    requires forall i :: 0 <= i < |args| ==> !IsOperator(args[i])
    ensures Run(p, args) == Going(p.(current := Some(cmd.(argv := cmd.argv + args))))
    decreases |args|
  {
    if args == [] {
      assert cmd.argv + args == cmd.argv;
    } else {
      var next := cmd.(argv := cmd.argv + [args[0]]);
      assert !IsOperator(args[0]);
      assert Step(p, args[0]) == Going(p.(current := Some(next)));
      ArgsParsed(p.(current := Some(next)), next, args[1..]);
      assert next.argv + args[1..] == cmd.argv + args;
    }
  }

  lemma RedirectsParsed(p: Parser, cmd: Node, stdin: Stream, stdout: Stream, stderr: Stream)
    requires cmd.Command? && p == Parser(InCommand, map[], Some(cmd), p.nodes)
    requires cmd.stdin == Inherit && cmd.stdout == Inherit && cmd.stderr == Inherit
    requires (stdin == Inherit || stdin.File?) && (stdout == Inherit || stdout.File?)
    requires stderr == Inherit || stderr == ToStdout || stderr.File?
    ensures Run(p, InTokens(stdin) + OutTokens(stdout) + ErrTokens(stderr))
         == Going(p.(current := Some(cmd.(stdin := stdin, stdout := stdout, stderr := stderr))))
  {
    var c1 := cmd.(stdin := stdin);
    var c2 := c1.(stdout := stdout);
    var p1, p2 := p.(current := Some(c1)), p.(current := Some(c2));
    InParsed(p, cmd, stdin);
    OutParsed(p1, c1, stdout);
    ErrParsed(p2, c2, stderr);
    RunAppend(p, InTokens(stdin), OutTokens(stdout));
    RunAppend(p, InTokens(stdin) + OutTokens(stdout), ErrTokens(stderr));
  }

  lemma TwoTokens(p: Parser, a: string, b: string)
    requires ModeOk(p) && Step(p, a).Going?
    ensures Run(p, [a, b]) == Step(Step(p, a).p, b)
  {
    RunAppend(p, [a], [b]);
    RunOne(p, a);
    RunOne(Step(p, a).p, b);
    assert [a] + [b] == [a, b];
  }

  lemma InParsed(p: Parser, cmd: Node, stdin: Stream)
    requires cmd.Command? && p == Parser(InCommand, map[], Some(cmd), p.nodes)
    requires cmd.stdin == Inherit && (stdin == Inherit || stdin.File?)
    ensures Run(p, InTokens(stdin)) == Going(p.(current := Some(cmd.(stdin := stdin))))
  {
    if stdin.File? {
      TwoTokens(p, "<", stdin.path);
    }
  }

  lemma OutParsed(p: Parser, cmd: Node, stdout: Stream)
    requires cmd.Command? && p == Parser(InCommand, map[], Some(cmd), p.nodes)
    requires cmd.stdout == Inherit && (stdout == Inherit || stdout.File?)
    ensures Run(p, OutTokens(stdout)) == Going(p.(current := Some(cmd.(stdout := stdout))))
  {
    if stdout.File? {
      TwoTokens(p, ">", stdout.path);
    }
  }

  lemma ErrParsed(p: Parser, cmd: Node, stderr: Stream)
    requires cmd.Command? && p == Parser(InCommand, map[], Some(cmd), p.nodes)
    requires cmd.stderr == Inherit && (stderr == Inherit || stderr == ToStdout || stderr.File?)
    ensures Run(p, ErrTokens(stderr)) == Going(p.(current := Some(cmd.(stderr := stderr))))
  {
    if stderr.File? {
      TwoTokens(p, "2>", stderr.path);
    } else if stderr == ToStdout {
      RunOne(p, "2>&1");
    }
  }

  /** What a unit looks like before the operator after it has been read. */
  ghost function Unpiped(unit: Node): Node {
    if unit.Command? && unit.stdout == ToPipe then unit.(stdout := Inherit) else unit
  }

  ghost function AtUnit(nodes: seq<Node>, unit: Node): Parser {
    Parser(if unit.Command? then InCommand else InChdir, map[], Some(Unpiped(unit)), nodes)
  }

  lemma CommandParsed(nodes: seq<Node>, unit: Node, next: Option<Node>)
    requires unit.Command? && UnitOk(unit, next)
    ensures Run(Parser(Begin, map[], None, nodes), NodeTokens(unit)) == Going(AtUnit(nodes, unit))
  {
    hide Step, Run, MatchEnvVar, InTokens, ErrTokens, EnvTokens, EnvOk;
    var p := Parser(Begin, map[], None, nodes);
    var env, args := EnvTokens(unit.envVars), unit.argv[1..];
    var redirects := InTokens(unit.stdin) + OutTokens(unit.stdout) + ErrTokens(unit.stderr);
    EnvParsed(p, unit.envVars);
    assert map[] + unit.envVars == unit.envVars;
    var p1 := p.(envVars := unit.envVars);
    var c := Command(unit.name, [unit.name], Inherit, Inherit, Inherit, unit.envVars);
    var p2 := Parser(InCommand, map[], Some(c), nodes);
    NameParsed(p1, unit.name);
    ArgsParsed(p2, c, args);
    var c3 := c.(argv := unit.argv);
    assert [unit.name] + args == unit.argv;
    var p3 := p2.(current := Some(c3));
    RedirectsParsed(p3, c3, unit.stdin, Unpiped(unit).stdout, unit.stderr);
    RunAppend(p, env, [unit.name]);
    RunAppend(p, env + [unit.name], args);
    RunAppend(p, env + [unit.name] + args, redirects);
    assert NodeTokens(unit) == env + [unit.name] + args + redirects;
  }

  lemma NameParsed(p: Parser, name: string)
    requires p.mode.Begin? && p.current.None? && name != "cd" && MatchEnvVar(name).None?
    ensures var cmd := Command(name, [name], Inherit, Inherit, Inherit, p.envVars);
      Run(p, [name]) == Going(Parser(InCommand, map[], Some(cmd), p.nodes))
  {
    RunOne(p, name);
  }

  lemma ChdirParsed(nodes: seq<Node>, unit: Node, next: Option<Node>)
    requires unit.Chdir? && UnitOk(unit, next)
    ensures Run(Parser(Begin, map[], None, nodes), NodeTokens(unit)) == Going(AtUnit(nodes, unit))
  {
    var p := Parser(Begin, map[], None, nodes);
    assert MatchEnvVar("cd").None?;
    if unit.dir.Some? {
      TwoTokens(p, "cd", unit.dir.value);
      assert NodeTokens(unit) == ["cd", unit.dir.value];
    } else {
      RunOne(p, "cd");
      assert NodeTokens(unit) == ["cd"];
    }
  }

  lemma OpParsed(nodes: seq<Node>, unit: Node, op: Node)
    requires UnitOk(unit, Some(op)) && IsOp(op)
    ensures Run(AtUnit(nodes, unit), NodeTokens(op)) == Going(Parser(Begin, map[], None, nodes + [unit, op]))
  {
    RunOne(AtUnit(nodes, unit), NodeTokens(op)[0]);
  }

  lemma UnitParsed(nodes: seq<Node>, unit: Node, next: Option<Node>)
    requires UnitOk(unit, next)
    ensures Run(Parser(Begin, map[], None, nodes), NodeTokens(unit)) == Going(AtUnit(nodes, unit))
  {
    if unit.Command? {
      CommandParsed(nodes, unit, next);
    } else {
      ChdirParsed(nodes, unit, next);
    }
  }

  /** Parsing a rendered prefix of whole units and operators rebuilds it. */
  lemma {:induction false} PrefixParsed(nodes: seq<Node>)
    requires |nodes| % 2 == 0 && NodesOk(nodes)
    ensures Run(Start, Render(nodes)) == Going(Parser(Begin, map[], None, nodes))
    decreases |nodes|
  {
    if nodes != [] {
      hide Run, UnitOk, NodeTokens, NodesOk, IsOp;
      var n := |nodes|;
      var front, unit, op := nodes[..n - 2], nodes[n - 2], nodes[n - 1];
      assert nodes == front + [unit, op];
      FrontOk(nodes);
      PrefixParsed(front);
      UnitParsed(front, unit, Some(op));
      OpParsed(front, unit, op);
      RunAppend(Start, Render(front), NodeTokens(unit));
      RunAppend(Start, Render(front) + NodeTokens(unit), NodeTokens(op));
      RenderTwo(nodes);
    }
  }

  lemma RenderTwo(nodes: seq<Node>)
    requires |nodes| >= 2
    ensures var n := |nodes|;
      Render(nodes) == Render(nodes[..n - 2]) + NodeTokens(nodes[n - 2]) + NodeTokens(nodes[n - 1])
  {
    hide NodeTokens;
    var n := |nodes|;
    assert nodes[..n - 1][..n - 2] == nodes[..n - 2];
  }

  lemma FrontOk(nodes: seq<Node>)
    requires |nodes| % 2 == 0 && |nodes| >= 2 && NodesOk(nodes)
    ensures NodesOk(nodes[..|nodes| - 2])
    ensures UnitOk(nodes[|nodes| - 2], Some(nodes[|nodes| - 1])) && IsOp(nodes[|nodes| - 1])
  {
    hide UnitOk;
    CutAgrees(nodes, |nodes| - 2);
    assert NodeOkAt(nodes, |nodes| - 2) && NodeOkAt(nodes, |nodes| - 1);
    var front := nodes[..|nodes| - 2];
    forall i | 0 <= i < |front|
      ensures NodeOkAt(front, i)
    {
      assert NodeOkAt(nodes, i);
    }
  }

  /** Parsing inverts rendering on every well-formed pipeline. */
  lemma RenderParsed(nodes: seq<Node>)
    requires WellFormed(nodes)
    ensures ParseTokens(Render(nodes)) == Some(nodes)
  {
    hide *;
    InitOk(nodes);
    var front, last := nodes[..|nodes| - 1], nodes[|nodes| - 1];
    PrefixParsed(front);
    UnitParsed(front, last, None);
    RunAppend(Start, Render(front), NodeTokens(last));
    RenderLast(nodes);
    FinishParse(Render(nodes), front, last);
    assert nodes == front + [last];
  }

  lemma RenderLast(nodes: seq<Node>)
    requires nodes != []
    ensures Render(nodes) == Render(nodes[..|nodes| - 1]) + NodeTokens(nodes[|nodes| - 1])
  {
  }

  lemma FinishParse(tokens: seq<string>, front: seq<Node>, last: Node)
    requires UnitOk(last, None) && Run(Start, tokens) == Going(AtUnit(front, last))
    ensures ParseTokens(tokens) == Some(front + [last])
  {
    hide Run;
    LastUnpiped(last);
  }

  lemma LastUnpiped(unit: Node)
    requires UnitOk(unit, None)
    ensures Unpiped(unit) == unit
  {
  }

  lemma InitOk(nodes: seq<Node>)
    requires WellFormed(nodes)
    ensures |nodes| > 0 && |nodes[..|nodes| - 1]| % 2 == 0
    ensures NodesOk(nodes[..|nodes| - 1]) && UnitOk(nodes[|nodes| - 1], None)
    ensures ModeOk(Start)
  {
    hide UnitOk;
    CutAgrees(nodes, |nodes| - 1);
    assert NodeOkAt(nodes, |nodes| - 1);
    var front := nodes[..|nodes| - 1];
    forall i | 0 <= i < |front|
      ensures NodeOkAt(front, i)
    {
      assert NodeOkAt(nodes, i);
    }
  }

  /** A pipeline comes out of the parser for some token list iff it is well-formed. */
  lemma ParserImage(nodes: seq<Node>)
    ensures WellFormed(nodes) <==> exists tokens :: ParseTokens(tokens) == Some(nodes)
  {
    if WellFormed(nodes) {
      RenderParsed(nodes);
    }
    forall tokens | ParseTokens(tokens) == Some(nodes)
      ensures WellFormed(nodes)
    {
      ParsedIsWellFormed(tokens);
    }
  }
}
