/** How far a chain of pipes gets, told by the statuses that come back. */
module ShellOperators {
  import opened Wrappers
  import opened ShellParser
  import opened ShellGrammar
  import opened ShellSentences
  import opened ShellRun

  /** The processes of the first m pipes, each pipe in the directories entered by then. */
  ghost function LaunchedBy(c: Chain, cwd: string, m: nat): seq<Launch>
    requires ChainOk(c) && m <= |c.segments|
    decreases m
  {
    if m == 0 then []
    else
      var dir := Enter(cwd, c.segments[0].dirs);
      Launches(c.segments[0].cmds, false, dir) + if m == 1 then [] else LaunchedBy(Rest(c), dir, m - 1)
  }

  /** Pipe j has just run; && goes on to the next after a success, || after a failure. */
  ghost predicate Continues(c: Chain, j: nat, retval: int)
    requires 0 < j <= |c.ops|
  {
    if c.ops[j - 1] == And then retval == 0 else retval != 0
  }

  ghost predicate StopsAt(status: Oracle, c: Chain, cwd: string, launched: seq<Launch>, m: nat)
    requires ChainOk(c)
  {
    && 1 <= m <= |c.segments|
    && (forall j :: 0 < j < m ==> Continues(c, j, status(launched + LaunchedBy(c, cwd, j))))
    && (m <= |c.ops| ==> !Continues(c, m, status(launched + LaunchedBy(c, cwd, m))))
  }

  lemma LaterStop(status: Oracle, c: Chain, cwd: string, launched: seq<Launch>, m: nat)
    requires ChainOk(c) && c.ops != []
    requires var dir := Enter(cwd, c.segments[0].dirs);
      var all := launched + LaunchedBy(c, cwd, 1);
      Continues(c, 1, status(all)) && StopsAt(status, Rest(c), dir, all, m)
    ensures StopsAt(status, c, cwd, launched, m + 1)
    ensures launched + LaunchedBy(c, cwd, m + 1)
         == launched + LaunchedBy(c, cwd, 1) + LaunchedBy(Rest(c), Enter(cwd, c.segments[0].dirs), m)
  {
    hide Launches, Enter;
    var dir := Enter(cwd, c.segments[0].dirs);
    var all := launched + LaunchedBy(c, cwd, 1);
    forall j | 1 <= j <= m
      ensures launched + LaunchedBy(c, cwd, j + 1) == all + LaunchedBy(Rest(c), dir, j)
    {
      OnePlus(c, cwd, j);
      Regroup(launched, LaunchedBy(c, cwd, 1), LaunchedBy(Rest(c), dir, j));
    }
    hide LaunchedBy;
    forall j | 0 < j < m + 1
      ensures Continues(c, j, status(launched + LaunchedBy(c, cwd, j)))
    {
      if j > 1 {
        assert Continues(Rest(c), j - 1, status(all + LaunchedBy(Rest(c), dir, j - 1)));
      }
    }
  }

  lemma OnePlus(c: Chain, cwd: string, j: nat)
    requires ChainOk(c) && 1 <= j <= |c.ops|
    ensures LaunchedBy(c, cwd, j + 1)
         == LaunchedBy(c, cwd, 1) + LaunchedBy(Rest(c), Enter(cwd, c.segments[0].dirs), j)
  {
  }

  lemma Regroup<T>(a: seq<T>, b: seq<T>, c: seq<T>)
    ensures a + (b + c) == a + b + c
  {
  }

  /** A chain starts its pipes one by one up to the first whose status the operator behind it does
      not go on after, and brings back that status. */
  lemma {:induction false} EvalStops(status: Oracle, c: Chain, cwd: string, launched: seq<Launch>) returns (m: nat)
    requires ChainOk(c)
    ensures StopsAt(status, c, cwd, launched, m)
    ensures var all := launched + LaunchedBy(c, cwd, m); Eval(status, c, cwd, launched) == Status(status(all), all)
    decreases |c.ops|
  {
    var dir := Enter(cwd, c.segments[0].dirs);
    var all := launched + Launches(c.segments[0].cmds, false, dir);
    assert LaunchedBy(c, cwd, 1) == Launches(c.segments[0].cmds, false, dir);
    if c.ops == [] || !GoesOn(c.ops[0], status(all)) {
      m := 1;
    } else {
      hide Launches, Enter, StopsAt;
      var k := EvalStops(status, Rest(c), dir, all);
      LaterStop(status, c, cwd, launched, k);
      m := k + 1;
    }
  }

  lemma RunStops(status: Oracle, c: Chain) returns (m: nat)
    requires ChainOk(c)
    ensures StopsAt(status, c, ".", [], m)
    ensures var all := LaunchedBy(c, ".", m);
      RunFrom(status, Flatten(c), false, ".", [], []) == Status(status(all), all)
  {
    RunRefinesEval(status, c, ".", []);
    m := EvalStops(status, c, ".", []);
    assert [] + LaunchedBy(c, ".", m) == LaunchedBy(c, ".", m);
    hide *;
  }

  // ---------- two commands ----------

  lemma TwoUnits(a: Unit, op: Node, b: Unit)
    requires IsOp(op)
    ensures var s := Sentence([(a, op)], b, None);
      && Tokens(s) == UnitTokens(a) + [OpToken(op)] + UnitTokens(b)
      && Nodes(s) == [NodeOf(a, Some(op)), op, NodeOf(b, None)]
  {
    var s := Sentence([(a, op)], b, None);
    hide UnitTokens, NodeOf, OpToken;
    assert s.front[..0] == [];
    assert FrontTokens(s.front) == UnitTokens(a) + [OpToken(op)];
    assert FrontNodes(s.front) == [NodeOf(a, Some(op)), op];
  }

  /** What is started, and the status, of two commands with an operator between them: behind a pipe
      the second always runs and its status counts, behind && only after a success of the first, and
      behind || only after a failure. */
  ghost function TwoRun(status: Oracle, op: string, first: Launch, second: Launch): Outcome {
    if op == "|" || (op == "&&" && status([first]) == 0) || (op == "||" && status([first]) != 0)
    then Status(status([first, second]), [first, second])
    else Status(status([first]), [first])
  }

  lemma TwoNodes(status: Oracle, a: Node, op: Node, b: Node)
    requires a.Command? && IsOp(op) && b.Command?
    ensures RunFrom(status, [a, op, b], false, ".", [], [])
         == TwoRun(status, OpToken(op), LaunchOf(a, false, "."), LaunchOf(b, op == Pipe, "."))
  {
    hide LaunchOf;
    var nodes := [a, op, b];
    var first, second := LaunchOf(a, false, "."), LaunchOf(b, op == Pipe, ".");
    assert nodes[2..] == [b] && [] + [first] == [first] && [first] + [second] == [first, second];
    var piped := if op == Pipe then [status([first])] else [];
    var last := RunFrom(status, [b], op == Pipe, ".", piped, [first]);
    assert last == Status(status([first, second]), [first, second]);
  }

  /** A command line of two commands, from its tokens to its processes. */
  lemma TwoCommands(status: Oracle, a: Unit, op: string, b: Unit)
    requires a.Cmd? && b.Cmd? && UnitFits(b, None) && op in {"|", "&&", "||"}
    requires UnitFits(a, if op == "|" then Some(Pipe) else None)
    ensures var nodes := ParseTokens(UnitTokens(a) + [op] + UnitTokens(b));
      var one, two := NodeOf(a, if op == "|" then Some(Pipe) else None), NodeOf(b, None);
      && nodes.Some?
      && RunFrom(status, nodes.value, false, ".", [], [])
         == TwoRun(status, op, LaunchOf(one, false, "."), LaunchOf(two, op == "|", "."))
  {
    var sign := if op == "|" then Pipe else if op == "&&" then And else Or;
    var s := Sentence([(a, sign)], b, None);
    assert OpToken(sign) == op && Valid(s);
    SentenceRead(s);
    TwoUnits(a, sign, b);
    var one, two := NodeOf(a, Some(sign)), NodeOf(b, None);
    assert one == NodeOf(a, if op == "|" then Some(Pipe) else None);
    TwoNodes(status, one, sign, two);
    hide RunFrom, TwoRun, UnitTokens, ParseTokens, LaunchOf;
  }
}
