/** The language the shell parser accepts, given as a grammar without reference to its state
    machine: units with their redirections and assignments in any order the code allows, joined by
    operators. */
module ShellSentences {
  import opened ShellParser
  import opened ShellGrammar
  import opened Wrappers

  datatype Kind = ToOut | ToErr | FromIn

  datatype Item = Arg(text: string) | Redirect(kind: Kind, path: string) | MergeErr

  /** env holds the assignments as they are written. */
  datatype Unit = Cmd(env: seq<string>, name: string, items: seq<Item>) | Cd(dir: Option<string>)

  /** Units with the operator after each, the last unit, and a redirection sign at the very end
      that lacks its file name. */
  datatype Sentence = Sentence(front: seq<(Unit, Node)>, last: Unit, dangling: Option<Kind>)

  // ---------- how a sentence is written ----------

  function KindToken(k: Kind): string {
    match k
    case ToOut => ">"
    case ToErr => "2>"
    case FromIn => "<"
  }

  function OpToken(op: Node): string
    requires IsOp(op)
  {
    match op
    case Pipe => "|"
    case And => "&&"
    case _ => "||"
  }

  function ItemTokens(item: Item): seq<string> {
    match item
    case Arg(text) => [text]
    case Redirect(k, path) => [KindToken(k), path]
    case MergeErr => ["2>&1"]
  }

  function ItemsTokens(items: seq<Item>): seq<string> {
    if items == [] then [] else ItemsTokens(items[..|items| - 1]) + ItemTokens(items[|items| - 1])
  }

  function UnitTokens(u: Unit): seq<string> {
    match u
    case Cmd(env, name, items) => env + [name] + ItemsTokens(items)
    case Cd(dir) => if dir.Some? then ["cd", dir.value] else ["cd"]
  }

  ghost predicate OpsOk(front: seq<(Unit, Node)>) {
    forall i :: 0 <= i < |front| ==> IsOp(front[i].1)
  }

  ghost function FrontTokens(front: seq<(Unit, Node)>): seq<string>
    requires OpsOk(front)
  {
    if front == [] then []
    else
      var (u, op) := front[|front| - 1];
      FrontTokens(front[..|front| - 1]) + UnitTokens(u) + [OpToken(op)]
  }

  ghost function Tokens(s: Sentence): seq<string>
    requires OpsOk(s.front)
  {
    FrontTokens(s.front) + UnitTokens(s.last) + if s.dangling.Some? then [KindToken(s.dangling.value)] else []
  }

  // ---------- which sentences there are ----------

  /** How many items direct a stream. */
  function Uses(items: seq<Item>, k: Kind): nat {
    if items == [] then 0
    else
      var last := items[|items| - 1];
      Uses(items[..|items| - 1], k) + if Directs(last, k) then 1 else 0
  }

  predicate Directs(item: Item, k: Kind) {
    match item
    case Arg(_) => false
    case Redirect(kind, _) => kind == k
    case MergeErr => k == ToErr
  }

  /** Arguments are no operators, and each stream is directed at most once. */
  ghost predicate ItemsOk(items: seq<Item>) {
    && (forall i :: 0 <= i < |items| && items[i].Arg? ==> !IsOperator(items[i].text))
    && forall k :: Uses(items, k) <= 1
  }

  ghost predicate EnvTokensOk(env: seq<string>) {
    forall i :: 0 <= i < |env| ==> MatchEnvVar(env[i]).Some?
  }

  /** A unit and the operator after it: a command that is piped leaves its output alone; a
      directory change is followed by && or nothing. */
  ghost predicate UnitFits(u: Unit, next: Option<Node>) {
    match u
    case Cmd(env, name, items) =>
      && EnvTokensOk(env) && name != "cd" && MatchEnvVar(name).None? && ItemsOk(items)
      && (next == Some(Pipe) ==> Uses(items, ToOut) == 0)
    case Cd(dir) => dir != Some("&&") && (next == None || next == Some(And))
  }

  ghost predicate FrontFits(front: seq<(Unit, Node)>) {
    forall i :: 0 <= i < |front| ==> IsOp(front[i].1) && UnitFits(front[i].0, Some(front[i].1))
  }

  ghost predicate Valid(s: Sentence) {
    FrontFits(s.front) && UnitFits(s.last, None) && (s.dangling.Some? ==> s.last.Cmd?)
  }

  // ---------- what a sentence means ----------

  function Args(items: seq<Item>): seq<string> {
    if items == [] then []
    else
      var last := items[|items| - 1];
      Args(items[..|items| - 1]) + if last.Arg? then [last.text] else []
  }

  /** Where the items direct a stream. */
  function Target(items: seq<Item>, k: Kind): Stream {
    if items == [] then Inherit
    else
      var last := items[|items| - 1];
      if !Directs(last, k) then Target(items[..|items| - 1], k)
      else if last.Redirect? then File(last.path)
      else ToStdout
  }

  function EnvOf(env: seq<string>): map<string, string> {
    if env == [] then map[]
    else
      var m := MatchEnvVar(env[|env| - 1]);
      var before := EnvOf(env[..|env| - 1]);
      if m.Some? then before[m.value.0 := m.value.1] else before
  }

  function NodeOf(u: Unit, next: Option<Node>): Node {
    match u
    case Cmd(env, name, items) =>
      Command(name, [name] + Args(items), Target(items, FromIn),
              if next == Some(Pipe) then ToPipe else Target(items, ToOut), Target(items, ToErr), EnvOf(env))
    case Cd(dir) => Chdir(dir)
  }

  function FrontNodes(front: seq<(Unit, Node)>): seq<Node> {
    if front == [] then []
    else
      var (u, op) := front[|front| - 1];
      FrontNodes(front[..|front| - 1]) + [NodeOf(u, Some(op)), op]
  }

  /** A dangling redirection means nothing. */
  function Nodes(s: Sentence): seq<Node> {
    FrontNodes(s.front) + [NodeOf(s.last, None)]
  }

  // ---------- how far a sentence has been read ----------

  datatype Partial = Opening(env: seq<string>) | Inside(u: Unit) | Awaiting(u: Unit, kind: Kind)

  ghost predicate PartialOk(x: Partial) {
    match x
    case Opening(env) => EnvTokensOk(env)
    case Inside(u) => UnitFits(u, None)
    case Awaiting(u, _) => u.Cmd? && UnitFits(u, None)
  }

  function PartialTokens(x: Partial): seq<string> {
    match x
    case Opening(env) => env
    case Inside(u) => UnitTokens(u)
    case Awaiting(u, k) => UnitTokens(u) + [KindToken(k)]
  }

  function AfterKind(k: Kind): Mode {
    match k
    case ToOut => AfterOut
    case ToErr => AfterErr
    case FromIn => AfterIn
  }

  function StateOf(nodes: seq<Node>, x: Partial): Parser {
    match x
    case Opening(env) => Parser(Begin, EnvOf(env), None, nodes)
    case Inside(u) => Parser(if u.Cmd? then InCommand else InChdir, map[], Some(NodeOf(u, None)), nodes)
    case Awaiting(u, k) => Parser(AfterKind(k), map[], Some(NodeOf(u, None)), nodes)
  }

  datatype Next = Stuck | Grown(x: Partial) | Closed(u: Unit, op: Node)

  function WithItem(u: Unit, item: Item): Unit
    requires u.Cmd?
  {
    u.(items := u.items + [item])
  }

  /** What one more token makes of it. */
  function Extend(x: Partial, token: string): Next
    requires x.Awaiting? ==> x.u.Cmd?
  {
    match x
    case Opening(env) =>
      if MatchEnvVar(token).Some? then Grown(Opening(env + [token]))
      else if token != "cd" then Grown(Inside(Cmd(env, token, [])))
      else if env == [] then Grown(Inside(Cd(None)))
      else Stuck
    case Inside(Cd(dir)) =>
      if token == "&&" then Closed(x.u, And)
      else if dir.None? then Grown(Inside(Cd(Some(token))))
      else Stuck
    case Inside(Cmd(_, _, items)) =>
      if token == ">" then Grown(Awaiting(x.u, ToOut))
      else if token == "2>" then Grown(Awaiting(x.u, ToErr))
      else if token == "<" then Grown(Awaiting(x.u, FromIn))
      else if token == "2>&1" then
        if Uses(items, ToErr) == 0 then Grown(Inside(WithItem(x.u, MergeErr))) else Stuck
      else if token == "|" then
        if Uses(items, ToOut) == 0 then Closed(x.u, Pipe) else Stuck
      else if token == "&&" then Closed(x.u, And)
      else if token == "||" then Closed(x.u, Or)
      else Grown(Inside(WithItem(x.u, Arg(token))))
    case Awaiting(u, k) =>
      if Uses(u.items, k) == 0 then Grown(Inside(WithItem(u, Redirect(k, token)))) else Stuck
  }

  // ---------- one token ----------

  lemma Snoc<T>(s: seq<T>, x: T)
    ensures (s + [x])[..|s + [x]| - 1] == s && (s + [x])[|s + [x]| - 1] == x
  {
  }

  /** A stream is undirected iff it is still inherited. */
  lemma {:induction false} UnusedIff(items: seq<Item>, k: Kind)
    ensures Uses(items, k) == 0 <==> Target(items, k) == Inherit
  {
    if items != [] {
      UnusedIff(items[..|items| - 1], k);
    }
  }

  lemma ItemAdded(items: seq<Item>, item: Item)
    ensures var all := items + [item];
      && Args(all) == Args(items) + (if item.Arg? then [item.text] else [])
      && ItemsTokens(all) == ItemsTokens(items) + ItemTokens(item)
      && (forall k :: Uses(all, k) == Uses(items, k) + if Directs(item, k) then 1 else 0)
      && (forall k :: Target(all, k) == if !Directs(item, k) then Target(items, k)
                                        else if item.Redirect? then File(item.path) else ToStdout)
  {
    Snoc(items, item);
  }

  lemma AddedItemOk(items: seq<Item>, item: Item)
    requires ItemsOk(items)
    requires item.Arg? ==> !IsOperator(item.text)
    requires forall k :: Directs(item, k) ==> Uses(items, k) == 0
    ensures ItemsOk(items + [item])
  {
    ItemAdded(items, item);
    hide IsOperator;
  }

  lemma {:induction false} EnvEmptyIff(env: seq<string>)
    requires EnvTokensOk(env)
    ensures EnvOf(env) == map[] <==> env == []
  {
    if env != [] {
      var m := MatchEnvVar(env[|env| - 1]);
      assert m.value.0 in EnvOf(env);
    }
  }

  lemma StateModeOk(nodes: seq<Node>, x: Partial)
    requires PartialOk(x)
    ensures ModeOk(StateOf(nodes, x)) && (x.Awaiting? ==> x.u.Cmd?)
  {
  }

  /** The state machine takes the token as the grammar does. */
  ghost predicate StepAgrees(nodes: seq<Node>, x: Partial, token: string)
    requires ModeOk(StateOf(nodes, x)) && (x.Awaiting? ==> x.u.Cmd?)
  {
    var r := Step(StateOf(nodes, x), token);
    match Extend(x, token)
    case Stuck => r.Failed?
    case Grown(y) => PartialOk(y) && PartialTokens(y) == PartialTokens(x) + [token] && r == Going(StateOf(nodes, y))
    case Closed(u, op) =>
      && x == Inside(u) && IsOp(op) && token == OpToken(op) && UnitFits(u, Some(op))
      && r == Going(StateOf(nodes + [NodeOf(u, Some(op)), op], Opening([])))
  }

  lemma ModeSteps(p: Parser, token: string)
    requires ModeOk(p)
    ensures p.mode.Begin? ==> Step(p, token) == StepBegin(p, token)
    ensures p.mode.InCommand? ==> Step(p, token) == StepCommand(p, token)
    ensures p.mode.InChdir? ==> Step(p, token) == StepChdir(p, token)
    ensures p.mode.AfterErr? || p.mode.AfterOut? || p.mode.AfterIn? ==> Step(p, token) == StepRedirect(p, token)
  {
    hide StepBegin, StepCommand, StepChdir, StepRedirect;
  }

  lemma OpeningStep(nodes: seq<Node>, env: seq<string>, token: string)
    requires EnvTokensOk(env)
    ensures StepAgrees(nodes, Opening(env), token)
  {
    hide Step, StepBegin, MatchEnvVar, UnitFits, UnitTokens, NodeOf, EnvOf, EnvTokensOk;
    ModeSteps(StateOf(nodes, Opening(env)), token);
    BeginSteps(nodes, env, token);
    if MatchEnvVar(token).Some? {
      EnvGrows(env, token);
    } else if token != "cd" {
      NewCommandFits(env, token);
    } else {
      NewChdirFits();
      assert [] + ["cd"] == ["cd"];
    }
  }

  /** What the first token of a unit does. */
  lemma BeginSteps(nodes: seq<Node>, env: seq<string>, token: string)
    requires EnvTokensOk(env)
    ensures var p, r := StateOf(nodes, Opening(env)), StepBegin(StateOf(nodes, Opening(env)), token);
      var m := MatchEnvVar(token);
      && (m.Some? ==> r == Going(p.(envVars := EnvOf(env)[m.value.0 := m.value.1])))
      && (m.None? && token != "cd" ==>
            r == Going(Parser(InCommand, map[], Some(NewCommand(token).(envVars := EnvOf(env))), nodes)))
      && (m.None? && token == "cd" && env == [] ==> r == Going(Parser(InChdir, map[], Some(Chdir(None)), nodes)))
      && (m.None? && token == "cd" && env != [] ==> r.Failed?)
  {
    EnvEmptyIff(env);
    hide MatchEnvVar, EnvTokensOk, EnvOf;
  }

  lemma NewChdirFits()
    ensures UnitFits(Cd(None), None) && UnitTokens(Cd(None)) == ["cd"] && NodeOf(Cd(None), None) == Chdir(None)
  {
  }

  lemma EnvGrows(env: seq<string>, token: string)
    requires EnvTokensOk(env)
    ensures var m := MatchEnvVar(token);
      m.Some? ==> EnvTokensOk(env + [token]) && EnvOf(env + [token]) == EnvOf(env)[m.value.0 := m.value.1]
  {
    Snoc(env, token);
    hide MatchEnvVar;
  }

  lemma NewCommandFits(env: seq<string>, name: string)
    requires EnvTokensOk(env) && name != "cd" && MatchEnvVar(name).None?
    ensures var u := Cmd(env, name, []);
      && UnitFits(u, None) && UnitTokens(u) == env + [name]
      && NodeOf(u, None) == NewCommand(name).(envVars := EnvOf(env))
  {
    hide MatchEnvVar, EnvOf;
    assert env + [name] + ItemsTokens([]) == env + [name] && [name] + Args([]) == [name];
    assert ItemsOk([]);
  }

  lemma CdIsNoAssignment()
    ensures MatchEnvVar("cd").None?
  {
  }

  lemma CdStep(nodes: seq<Node>, dir: Option<string>, token: string)
    requires UnitFits(Cd(dir), None)
    ensures StepAgrees(nodes, Inside(Cd(dir)), token)
  {
  }

  /** What one more item adds to a command. */
  function ItemEffect(cmd: Node, item: Item): Node
    requires cmd.Command?
  {
    match item
    case Arg(text) => cmd.(argv := cmd.argv + [text])
    case MergeErr => cmd.(stderr := ToStdout)
    case Redirect(k, path) =>
      match k
      case ToOut => cmd.(stdout := File(path))
      case ToErr => cmd.(stderr := File(path))
      case FromIn => cmd.(stdin := File(path))
  }

  /** The command after one more item. */
  lemma GrownCommand(u: Unit, item: Item)
    requires u.Cmd? && UnitFits(u, None)
    requires item.Arg? ==> !IsOperator(item.text)
    requires forall k :: Directs(item, k) ==> Uses(u.items, k) == 0
    ensures UnitFits(WithItem(u, item), None)
    ensures UnitTokens(WithItem(u, item)) == UnitTokens(u) + ItemTokens(item)
    ensures NodeOf(WithItem(u, item), None) == ItemEffect(NodeOf(u, None), item)
  {
    AddedItemOk(u.items, item);
    ItemAdded(u.items, item);
    hide ItemsOk, EnvTokensOk, MatchEnvVar, ItemsTokens, Args, Uses, Target, IsOperator, EnvOf;
    var more := ItemTokens(item);
    assert u.env + [u.name] + (ItemsTokens(u.items) + more) == u.env + [u.name] + ItemsTokens(u.items) + more;
    assert [u.name] + (Args(u.items) + [""]) == [u.name] + Args(u.items) + [""];
    if item.Arg? {
      assert [u.name] + (Args(u.items) + [item.text]) == [u.name] + Args(u.items) + [item.text];
    } else {
      assert Args(u.items) + [] == Args(u.items);
    }
  }

  lemma CommandStep(nodes: seq<Node>, u: Unit, token: string)
    requires u.Cmd? && UnitFits(u, None)
    ensures StepAgrees(nodes, Inside(u), token)
  {
    UnusedIff(u.items, ToErr);
    UnusedIff(u.items, ToOut);
    ModeSteps(StateOf(nodes, Inside(u)), token);
    hide Step, ItemsOk, EnvTokensOk, MatchEnvVar, ItemsTokens, Args, Uses, Target;
    if token == "2>&1" {
      if Uses(u.items, ToErr) == 0 {
        GrownCommand(u, MergeErr);
      }
    } else if !IsOperator(token) {
      GrownCommand(u, Arg(token));
    }
  }

  /** A file name is taken unless its stream is already directed. */
  lemma RedirectTaken(nodes: seq<Node>, u: Unit, k: Kind, token: string)
    requires u.Cmd? && UnitFits(u, None)
    ensures var p, v := StateOf(nodes, Awaiting(u, k)), WithItem(u, Redirect(k, token));
      StepRedirect(p, token) == if Uses(u.items, k) == 0 then Going(StateOf(nodes, Inside(v))) else Failed(p)
  {
    UnusedIff(u.items, k);
    if Uses(u.items, k) == 0 {
      GrownCommand(u, Redirect(k, token));
      hide UnitFits, UnitTokens, Uses, Target, Args, EnvOf;
    } else {
      hide UnitFits, Uses, Target, Args, EnvOf;
    }
  }

  lemma AwaitingStep(nodes: seq<Node>, u: Unit, k: Kind, token: string)
    requires u.Cmd? && UnitFits(u, None)
    ensures StepAgrees(nodes, Awaiting(u, k), token)
  {
    StateModeOk(nodes, Awaiting(u, k));
    AfterKindMode(k);
    ModeSteps(StateOf(nodes, Awaiting(u, k)), token);
    RedirectTaken(nodes, u, k, token);
    if Uses(u.items, k) == 0 {
      GrownCommand(u, Redirect(k, token));
      assert UnitTokens(u) + [KindToken(k), token] == UnitTokens(u) + [KindToken(k)] + [token];
    }
    hide Step, StepRedirect, ModeOk, UnitFits, UnitTokens, KindToken, NodeOf, Uses, AfterKind;
  }

  lemma AfterKindMode(k: Kind)
    ensures AfterKind(k).AfterErr? || AfterKind(k).AfterOut? || AfterKind(k).AfterIn?
  {
  }

  // ---------- any number of tokens ----------

  ghost predicate Describes(front: seq<(Unit, Node)>, x: Partial, tokens: seq<string>, p: Parser) {
    && FrontFits(front) && PartialOk(x)
    && tokens == FrontTokens(front) + PartialTokens(x)
    && p == StateOf(FrontNodes(front), x)
  }

  lemma FrontSnoc(front: seq<(Unit, Node)>, u: Unit, op: Node)
    requires FrontFits(front) && IsOp(op) && UnitFits(u, Some(op))
    ensures FrontFits(front + [(u, op)])
    ensures FrontTokens(front + [(u, op)]) == FrontTokens(front) + UnitTokens(u) + [OpToken(op)]
    ensures FrontNodes(front + [(u, op)]) == FrontNodes(front) + [NodeOf(u, Some(op)), op]
  {
    Snoc(front, (u, op));
    hide UnitFits;
  }

  /** One token more: the description grows with the state, and sticks where the parser fails. */
  lemma DescribesNext(front: seq<(Unit, Node)>, x: Partial, tokens: seq<string>, p: Parser, token: string)
    requires Describes(front, x, tokens, p)
    ensures ModeOk(p) && (x.Awaiting? ==> x.u.Cmd?)
    ensures var r, next := Step(p, token), Extend(x, token);
      && (next.Stuck? ==> r.Failed?)
      && (next.Grown? ==> r.Going? && Describes(front, next.x, tokens + [token], r.p))
      && (next.Closed? ==> r.Going? && Describes(front + [(next.u, next.op)], Opening([]), tokens + [token], r.p))
  {
    hide UnitFits, Step, UnitTokens, NodeOf, FrontFits, FrontTokens, FrontNodes, PartialOk, StateOf, Extend, ModeOk;
    AnyStep(FrontNodes(front), x, token);
    var next := Extend(x, token);
    if next.Grown? {
      GrownDescribed(front, x, next.x, tokens, token);
    } else if next.Closed? {
      ClosedDescribed(front, next.u, next.op, tokens);
    }
  }

  lemma GrownDescribed(front: seq<(Unit, Node)>, x: Partial, y: Partial, tokens: seq<string>, token: string)
    requires FrontFits(front) && PartialOk(y) && PartialTokens(y) == PartialTokens(x) + [token]
    requires tokens == FrontTokens(front) + PartialTokens(x)
    ensures Describes(front, y, tokens + [token], StateOf(FrontNodes(front), y))
  {
    hide FrontFits, FrontTokens, FrontNodes, PartialOk, PartialTokens, StateOf;
  }

  lemma ClosedDescribed(front: seq<(Unit, Node)>, u: Unit, op: Node, tokens: seq<string>)
    requires FrontFits(front) && IsOp(op) && UnitFits(u, Some(op)) && tokens == FrontTokens(front) + UnitTokens(u)
    ensures Describes(front + [(u, op)], Opening([]), tokens + [OpToken(op)],
                      StateOf(FrontNodes(front) + [NodeOf(u, Some(op)), op], Opening([])))
  {
    FrontSnoc(front, u, op);
    NoEnvOk();
    hide FrontFits, FrontTokens, FrontNodes, EnvTokensOk, UnitFits, UnitTokens, NodeOf, StateOf, OpToken;
    assert FrontTokens(front + [(u, op)]) + [] == tokens + [OpToken(op)];
  }

  lemma AnyStep(nodes: seq<Node>, x: Partial, token: string)
    requires PartialOk(x)
    ensures ModeOk(StateOf(nodes, x)) && (x.Awaiting? ==> x.u.Cmd?) && StepAgrees(nodes, x, token)
  {
    StateModeOk(nodes, x);
    hide StepAgrees, UnitFits, ModeOk, StateOf;
    match x
    case Opening(env) => OpeningStep(nodes, env, token);
    case Inside(Cd(dir)) => CdStep(nodes, dir, token);
    case Inside(Cmd(_, _, _)) => CommandStep(nodes, x.u, token);
    case Awaiting(u, k) => AwaitingStep(nodes, u, k, token);
  }

  lemma NoEnvOk()
    ensures EnvTokensOk([])
  {
  }

  /** Wherever the parser gets to, it has read the beginning of some sentence. */
  lemma {:induction false} ReadDescribed(tokens: seq<string>) returns (front: seq<(Unit, Node)>, x: Partial)
    requires Run(Start, tokens).Going?
    ensures Describes(front, x, tokens, Run(Start, tokens).p)
    decreases |tokens|
  {
    if tokens == [] {
      front, x := [], Opening([]);
      NoEnvOk();
      assert [] + PartialTokens(x) == tokens;
    } else {
      hide Run, Step, Describes, Extend;
      var init, token := tokens[..|tokens| - 1], tokens[|tokens| - 1];
      assert tokens == init + [token];
      RunSnoc(init, token);
      front, x := ReadDescribed(init);
      var p := Run(Start, init).p;
      DescribesNext(front, x, init, p, token);
      match Extend(x, token) {
        case Grown(y) => x := y;
        case Closed(u, op) => front, x := front + [(u, op)], Opening([]);
      }
    }
  }

  lemma RunSnoc(init: seq<string>, token: string)
    ensures Run(Start, init + [token]).Going? ==> Run(Start, init).Going?
    ensures Run(Start, init).Going? ==> Run(Start, init + [token]) == Step(Run(Start, init).p, token)
  {
    if Run(Start, init).Going? {
      RunAppend(Start, init, [token]);
      RunOne(Run(Start, init).p, token);
    } else {
      FailedStays(Start, init, [token]);
    }
  }

  lemma {:induction false} FailedStays(p: Parser, s: seq<string>, t: seq<string>)
    requires ModeOk(p) && Run(p, s).Failed?
    ensures Run(p, s + t).Failed?
    decreases |s|
  {
    hide Step;
    assert s != [] && (s + t)[0] == s[0] && (s + t)[1..] == s[1..] + t;
    var r := Step(p, s[0]);
    if r.Going? {
      FailedStays(r.p, s[1..], t);
    }
  }

  // ---------- every sentence is read ----------

  ghost function Weight(x: Partial): nat {
    match x
    case Opening(env) => |env|
    case Inside(Cd(dir)) => if dir.Some? then 2 else 1
    case Inside(Cmd(env, _, items)) => |env| + 1 + 2 * |items|
    case Awaiting(u, _) => if u.Cmd? then |u.env| + 2 + 2 * |u.items| else 0
  }

  /** The sentence one token earlier. */
  lemma Before(x: Partial) returns (y: Partial, token: string)
    requires PartialOk(x) && x != Opening([])
    ensures PartialOk(y) && (y.Awaiting? ==> y.u.Cmd?) && Extend(y, token) == Grown(x) && Weight(y) < Weight(x)
  {
    match x {
      case Opening(env) =>
        y, token := Opening(env[..|env| - 1]), env[|env| - 1];
        assert env == env[..|env| - 1] + [token];
      case Inside(Cd(dir)) =>
        CdIsNoAssignment();
        NoEnvOk();
        y, token := if dir.Some? then Inside(Cd(None)) else Opening([]), if dir.Some? then dir.value else "cd";
      case Inside(Cmd(env, name, items)) =>
        if items == [] {
          y, token := Opening(env), name;
        } else {
          y, token := BeforeItem(x.u);
        }
      case Awaiting(u, k) =>
        y, token := Inside(u), KindToken(k);
    }
  }

  lemma BeforeItem(u: Unit) returns (y: Partial, token: string)
    requires u.Cmd? && UnitFits(u, None) && u.items != []
    ensures PartialOk(y) && (y.Awaiting? ==> y.u.Cmd?) && Extend(y, token) == Grown(Inside(u))
    ensures Weight(y) < Weight(Inside(u))
  {
    var items, item := u.items[..|u.items| - 1], u.items[|u.items| - 1];
    var v := u.(items := items);
    assert u.items == items + [item] && WithItem(v, item) == u;
    FewerItemsOk(items, item);
    hide ItemsOk, EnvTokensOk, MatchEnvVar, Uses;
    match item {
      case Arg(text) => y, token := Inside(v), text;
      case MergeErr => y, token := Inside(v), "2>&1";
      case Redirect(k, path) => y, token := Awaiting(v, k), path;
    }
  }

  lemma FewerItemsOk(items: seq<Item>, item: Item)
    requires ItemsOk(items + [item])
    ensures ItemsOk(items) && (item.Arg? ==> !IsOperator(item.text))
    ensures forall k :: Directs(item, k) ==> Uses(items, k) == 0
  {
    ItemAdded(items, item);
    hide IsOperator, Directs;
    var all := items + [item];
    assert forall i :: 0 <= i < |items| ==> items[i] == all[i];
    assert all[|items|] == item;
    forall k
      ensures Uses(items, k) <= 1 && (Directs(item, k) ==> Uses(items, k) == 0)
    {
      assert Uses(all, k) <= 1;
    }
  }

  /** Reading the beginning of a sentence leads to the state it describes. */
  lemma {:induction false} BeginningRead(front: seq<(Unit, Node)>, x: Partial)
    requires FrontFits(front) && PartialOk(x)
    ensures Run(Start, FrontTokens(front) + PartialTokens(x)) == Going(StateOf(FrontNodes(front), x))
    decreases |front|, Weight(x)
  {
    if x != Opening([]) {
      var y, token := Before(x);
      BeginningRead(front, y);
      NextRead(front, y, token);
      AnyTokens(front, y, token);
    } else if front != [] {
      var (u, op) := front[|front| - 1];
      var init := front[..|front| - 1];
      assert front == init + [(u, op)];
      UnitCloses(init, u, op);
      BeginningRead(init, Inside(u));
      NextRead(init, Inside(u), OpToken(op));
      assert FrontTokens(init) + UnitTokens(u) + [OpToken(op)] == FrontTokens(front) + PartialTokens(x);
    } else {
      assert FrontTokens(front) + PartialTokens(x) == [];
    }
  }

  lemma UnitCloses(init: seq<(Unit, Node)>, u: Unit, op: Node)
    requires FrontFits(init + [(u, op)])
    ensures FrontFits(init) && IsOp(op) && UnitFits(u, Some(op)) && UnitFits(u, None)
    ensures Extend(Inside(u), OpToken(op)) == Closed(u, op)
  {
    var front := init + [(u, op)];
    assert front[|init|] == (u, op);
    assert forall i :: 0 <= i < |init| ==> init[i] == front[i];
    hide ItemsOk, EnvTokensOk, MatchEnvVar, Uses;
  }

  lemma NextRead(front: seq<(Unit, Node)>, y: Partial, token: string)
    requires FrontFits(front) && PartialOk(y)
    requires Run(Start, FrontTokens(front) + PartialTokens(y)) == Going(StateOf(FrontNodes(front), y))
    ensures y.Awaiting? ==> y.u.Cmd?
    ensures var r, next := Run(Start, FrontTokens(front) + PartialTokens(y) + [token]), Extend(y, token);
      && (next.Grown? ==> r == Going(StateOf(FrontNodes(front), next.x)))
      && (next.Closed? ==> r == Going(StateOf(FrontNodes(front + [(next.u, next.op)]), Opening([]))))
  {
    var tokens := FrontTokens(front) + PartialTokens(y);
    var p := StateOf(FrontNodes(front), y);
    RunSnoc(tokens, token);
    DescribesNext(front, y, tokens, p, token);
    hide Run, Step, Extend, StateOf, FrontFits, FrontTokens, FrontNodes, PartialOk;
  }

  lemma AnyTokens(front: seq<(Unit, Node)>, y: Partial, token: string)
    requires OpsOk(front) && PartialOk(y) && (y.Awaiting? ==> y.u.Cmd?) && Extend(y, token).Grown?
    ensures FrontTokens(front) + PartialTokens(Extend(y, token).x) == FrontTokens(front) + PartialTokens(y) + [token]
  {
    hide *;
    AnyStep([], y, token);
    GrownTokens(y, token);
    assert FrontTokens(front) + (PartialTokens(y) + [token]) == FrontTokens(front) + PartialTokens(y) + [token];
  }

  lemma GrownTokens(y: Partial, token: string)
    requires ModeOk(StateOf([], y)) && (y.Awaiting? ==> y.u.Cmd?)
    requires StepAgrees([], y, token) && Extend(y, token).Grown?
    ensures PartialTokens(Extend(y, token).x) == PartialTokens(y) + [token]
  {
    hide Extend, PartialTokens, PartialOk, ModeOk, StateOf, Step;
  }

  // ---------- the accepted language ----------

  ghost predicate Writes(s: Sentence, tokens: seq<string>, nodes: seq<Node>) {
    Valid(s) && Tokens(s) == tokens && Nodes(s) == nodes
  }

  /** The parser accepts exactly the sentences and returns exactly what they mean. */
  lemma AcceptedIff(tokens: seq<string>, nodes: seq<Node>)
    ensures ParseTokens(tokens) == Some(nodes) <==> exists s :: Writes(s, tokens, nodes)
  {
    if ParseTokens(tokens) == Some(nodes) {
      var front, x := ReadDescribed(tokens);
      var s := SentenceOf(front, x, tokens);
      assert Writes(s, tokens, nodes);
    }
    forall s | Writes(s, tokens, nodes)
      ensures ParseTokens(tokens) == Some(nodes)
    {
      SentenceRead(s);
    }
  }

  lemma SentenceOf(front: seq<(Unit, Node)>, x: Partial, tokens: seq<string>) returns (s: Sentence)
    requires ParseTokens(tokens).Some? && Describes(front, x, tokens, Run(Start, tokens).p)
    ensures Writes(s, tokens, ParseTokens(tokens).value)
  {
    hide UnitFits, UnitTokens, NodeOf, FrontTokens, FrontNodes, Run;
    s := Sentence(front, x.u, if x.Awaiting? then Some(x.kind) else None);
    assert Tokens(s) == tokens;
  }

  lemma SentenceRead(s: Sentence)
    requires Valid(s)
    ensures ParseTokens(Tokens(s)) == Some(Nodes(s))
  {
    var x := if s.dangling.Some? then Awaiting(s.last, s.dangling.value) else Inside(s.last);
    BeginningRead(s.front, x);
    hide UnitFits, UnitTokens, NodeOf, FrontTokens, FrontNodes, Run;
    assert Tokens(s) == FrontTokens(s.front) + PartialTokens(x);
  }

  /** A redirection sign at the very end, with no file name after it, is accepted and ignored. */
  lemma DanglingIgnored(s: Sentence, k: Kind)
    requires Valid(s) && s.last.Cmd? && s.dangling == None
    ensures ParseTokens(Tokens(s) + [KindToken(k)]) == ParseTokens(Tokens(s)) == Some(Nodes(s))
  {
    hide ParseTokens, UnitFits, UnitTokens, NodeOf, FrontTokens, FrontNodes;
    var t := s.(dangling := Some(k));
    SentenceRead(s);
    SentenceRead(t);
    assert Tokens(t) == Tokens(s) + [KindToken(k)];
  }
}
