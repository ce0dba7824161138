/** The shell command-line parser: a six-state machine over tokens that builds a flat list of
    commands, directory changes and operators. */
module ShellParser {
  import opened Wrappers

  /** Where a command's stream goes: nowhere special, a pipe, the command's stdout, a file. */
  datatype Stream = Inherit | ToPipe | ToStdout | File(path: string)

  /** envVars is empty when the command has no assignments. */
  datatype Node =
    | Command(name: string, argv: seq<string>, stdin: Stream, stdout: Stream, stderr: Stream,
              envVars: map<string, string>)
    | Chdir(dir: Option<string>)
    | Pipe
    | And
    | Or

  datatype Mode = Begin | InCommand | InChdir | AfterErr | AfterOut | AfterIn

  datatype Parser = Parser(mode: Mode, envVars: map<string, string>, current: Option<Node>, nodes: seq<Node>)

  /** Failed is an AssertionError, with what had been built when it was raised. */
  datatype Progress = Going(p: Parser) | Failed(p: Parser)

  function NewCommand(name: string): Node {
    Command(name, [name], Inherit, Inherit, Inherit, map[])
  }

  // ---------- environment assignments ----------

  predicate IsWordChar(c: char) {
    'a' <= c <= 'z' || 'A' <= c <= 'Z' || '0' <= c <= '9' || c == '_'
  }

  predicate IsSpace(c: char) {
    c in {' ', '\t', '\n', '\r', '\U{0B}', '\U{0C}', '\U{1C}', '\U{1D}', '\U{1E}', '\U{1F}'}
  }

  predicate IsKey(s: string) {
    s != [] && forall i :: 0 <= i < |s| ==> IsWordChar(s[i])
  }

  predicate IsValue(s: string) {
    s != [] && forall i :: 0 <= i < |s| ==> !IsSpace(s[i])
  }

  /** Length of the leading run of word characters. */
  function WordPrefix(s: string): (n: nat)
    ensures n <= |s|
    ensures forall i :: 0 <= i < n ==> IsWordChar(s[i])
    ensures n < |s| ==> !IsWordChar(s[n])
  {
    if s != [] && IsWordChar(s[0]) then 1 + WordPrefix(s[1..]) else 0
  }

  /** key=value with a word for a key and a value without spaces; like the regular expression
      it stands for, it tolerates one newline at the very end. */
  function MatchEnvVar(token: string): Option<(string, string)> {
    var n := WordPrefix(token);
    if n == 0 || n == |token| || token[n] != '=' then None
    else
      var rest := token[n + 1..];
      var value := if rest != [] && rest[|rest| - 1] == '\n' then rest[..|rest| - 1] else rest;
      if IsValue(value) then Some((token[..n], value)) else None
  }

  function EnvToken(key: string, value: string): string {
    key + "=" + value
  }

  lemma {:induction false} WordPrefixOf(key: string, rest: string)
    requires IsKey(key) && rest != [] && !IsWordChar(rest[0])
    ensures WordPrefix(key + rest) == |key|
  {
    var s := key + rest;
    assert s[|key|] == rest[0];
    var n := WordPrefix(s);
    assert forall i :: 0 <= i < |key| ==> s[i] == key[i] && IsWordChar(s[i]);
  }

  /** Writing an assignment and matching it gives the key and value back. */
  lemma EnvVarRoundTrip(key: string, value: string)
    requires IsKey(key) && IsValue(value)
    ensures MatchEnvVar(EnvToken(key, value)) == Some((key, value))
  {
    var s := EnvToken(key, value);
    assert s == key + ("=" + value);
    WordPrefixOf(key, "=" + value);
    assert s[..|key|] == key && s[|key| + 1..] == value;
    assert !IsSpace(value[|value| - 1]);
  }

  /** The two character classes, character by character. */
  lemma WordChars(c: char)
    ensures IsWordChar(c) <==> c in {
      'a', 'b', 'c', 'd', 'e', 'f', 'g', 'h', 'i', 'j', 'k', 'l', 'm', 'n', 'o', 'p', 'q', 'r', 's', 't', 'u',
      'v', 'w', 'x', 'y', 'z', 'A', 'B', 'C', 'D', 'E', 'F', 'G', 'H', 'I', 'J', 'K', 'L', 'M', 'N', 'O', 'P',
      'Q', 'R', 'S', 'T', 'U', 'V', 'W', 'X', 'Y', 'Z', '0', '1', '2', '3', '4', '5', '6', '7', '8', '9', '_'}
  {
  }

  lemma Spaces(c: char)
    ensures IsSpace(c) <==> c == ' ' || '\t' <= c <= '\r' || '\U{1C}' <= c <= '\U{1F}'
  {
  }

  /** A token is an assignment exactly if it is a key, an equals sign and a value, with at most one
      newline behind it. */
  lemma MatchEnvVarIff(token: string, key: string, value: string)
    ensures MatchEnvVar(token) == Some((key, value)) <==>
      && IsKey(key) && IsValue(value)
      && (token == key + "=" + value || token == key + "=" + value + "\n")
  {
    if MatchEnvVar(token) == Some((key, value)) {
      MatchedText(token);
    }
    hide MatchEnvVar;
    if IsKey(key) && IsValue(value) {
      EnvVarRoundTrip(key, value);
      EnvVarThenNewline(key, value);
    }
  }

  lemma MatchedText(token: string)
    requires MatchEnvVar(token).Some?
    ensures var (key, value) := MatchEnvVar(token).value;
      && IsKey(key) && IsValue(value)
      && (token == key + "=" + value || token == key + "=" + value + "\n")
  {
    var n := WordPrefix(token);
    var key, rest := token[..n], token[n + 1..];
    assert IsKey(key);
    hide IsKey, IsValue, WordPrefix, IsWordChar;
    CutAtEquals(token, n);
    if rest[|rest| - 1] == '\n' {
      NewlineBehind(key, rest);
    }
  }

  lemma CutAtEquals(token: string, n: nat)
    requires n < |token| && token[n] == '='
    ensures token == token[..n] + "=" + token[n + 1..]
  {
  }

  lemma NewlineBehind(key: string, rest: string)
    requires rest != [] && rest[|rest| - 1] == '\n'
    ensures key + "=" + rest == key + "=" + rest[..|rest| - 1] + "\n"
  {
    assert rest == rest[..|rest| - 1] + "\n";
  }

  lemma EnvVarThenNewline(key: string, value: string)
    requires IsKey(key) && IsValue(value)
    ensures MatchEnvVar(key + "=" + value + "\n") == Some((key, value))
  {
    var s, rest := key + "=" + value + "\n", value + "\n";
    assert s == key + ("=" + rest);
    WordPrefixOf(key, "=" + rest);
    assert s[..|key|] == key && s[|key| + 1..] == rest && rest[..|rest| - 1] == value;
  }

  // ---------- one token ----------

  predicate IsOperator(token: string) {
    token in {">", "2>", "2>&1", "<", "|", "&&", "||"}
  }

  function Commit(p: Parser, op: Node): Parser
    requires p.current.Some?
  {
    Parser(Begin, p.envVars, None, p.nodes + [p.current.value, op])
  }

  function StepBegin(p: Parser, token: string): Progress {
    var m := MatchEnvVar(token);
    if m.Some? then Going(p.(envVars := p.envVars[m.value.0 := m.value.1]))
    else if p.current.Some? then Failed(p)
    else if token == "cd" then
      var q := p.(current := Some(Chdir(None)));
      if p.envVars != map[] then Failed(q) else Going(q.(mode := InChdir))
    else Going(Parser(InCommand, map[], Some(NewCommand(token).(envVars := p.envVars)), p.nodes))
  }

  function StepCommand(p: Parser, token: string): Progress
    requires p.current.Some? && p.current.value.Command?
  {
    var cmd := p.current.value;
    if token == ">" then Going(p.(mode := AfterOut))
    else if token == "2>" then Going(p.(mode := AfterErr))
    else if token == "2>&1" then
      if cmd.stderr != Inherit then Failed(p) else Going(p.(current := Some(cmd.(stderr := ToStdout))))
    else if token == "<" then Going(p.(mode := AfterIn))
    else if token == "|" then
      if cmd.stdout != Inherit then Failed(p)
      else Going(Commit(p.(current := Some(cmd.(stdout := ToPipe))), Pipe))
    else if token == "&&" then Going(Commit(p, And))
    else if token == "||" then Going(Commit(p, Or))
    else Going(p.(current := Some(cmd.(argv := cmd.argv + [token]))))
  }

  function StepChdir(p: Parser, token: string): Progress
    requires p.current.Some? && p.current.value.Chdir?
  {
    if token == "&&" then Going(Commit(p, And))
    else if p.current.value.dir.Some? then Failed(p)
    else Going(p.(current := Some(Chdir(Some(token)))))
  }

  function StepRedirect(p: Parser, token: string): Progress
    requires p.current.Some? && p.current.value.Command?
    requires p.mode.AfterErr? || p.mode.AfterOut? || p.mode.AfterIn?
  {
    var cmd := p.current.value;
    match p.mode
    case AfterOut =>
      if cmd.stdout != Inherit then Failed(p)
      else Going(p.(current := Some(cmd.(stdout := File(token))), mode := InCommand))
    case AfterErr =>
      if cmd.stderr != Inherit then Failed(p)
      else Going(p.(current := Some(cmd.(stderr := File(token))), mode := InCommand))
    case AfterIn =>
      if cmd.stdin != Inherit then Failed(p)
      else Going(p.(current := Some(cmd.(stdin := File(token))), mode := InCommand))
  }

  /** In every mode but Begin a command of the right kind is under construction. */
  ghost predicate ModeOk(p: Parser) {
    match p.mode
    case Begin => p.current.None?
    case InChdir => p.current.Some? && p.current.value.Chdir?
    case _ => p.current.Some? && p.current.value.Command?
  }

  function Step(p: Parser, token: string): (r: Progress)
    requires ModeOk(p)
    ensures r.Going? ==> ModeOk(r.p)
  {
    match p.mode
    case Begin => StepBegin(p, token)
    case InCommand => StepCommand(p, token)
    case InChdir => StepChdir(p, token)
    case _ => StepRedirect(p, token)
  }

  const Start := Parser(Begin, map[], None, [])

  function Run(p: Parser, tokens: seq<string>): (r: Progress)
    requires ModeOk(p)
    ensures r.Going? ==> ModeOk(r.p)
    decreases |tokens|
  {
    if tokens == [] then Going(p)
    else
      match Step(p, tokens[0])
      case Failed(q) => Failed(q)
      case Going(q) => Run(q, tokens[1..])
  }

  /** The nodes of a token list, or None for an AssertionError: some step failed, or the
      tokens ended where a command was still to come. */
  function ParseTokens(tokens: seq<string>): Option<seq<Node>> {
    match Run(Start, tokens)
    case Failed(_) => None
    case Going(p) => if p.current.Some? then Some(p.nodes + [p.current.value]) else None
  }

  lemma RunUnfolds(p: Parser, tokens: seq<string>)
    requires ModeOk(p)
    ensures Run(p, tokens) ==
      if tokens == [] then Going(p)
      else if Step(p, tokens[0]).Failed? then Step(p, tokens[0]) else Run(Step(p, tokens[0]).p, tokens[1..])
  {
    hide Step;
  }

  // ---------- the parser object ----------

  class Pipeline {
    var currentCommand: Option<Node>
    var pipeline: seq<Node>

    constructor ()
      ensures currentCommand == None && pipeline == []
    {
      currentCommand, pipeline := None, [];
    }

    method CommitCommand() returns (ok: bool)
      modifies this
      ensures ok <==> old(currentCommand).Some?
      ensures ok ==> pipeline == old(pipeline) + [old(currentCommand).value] && currentCommand == None
      ensures !ok ==> pipeline == old(pipeline) && currentCommand == old(currentCommand)
    {
      if currentCommand.None? {
        return false;
      }
      pipeline := pipeline + [currentCommand.value];
      currentCommand := None;
      return true;
    }

    /** Parse a token list in place; false is the AssertionError, which leaves the object
        with what it had built so far. */
    method Parse(tokens0: seq<string>) returns (ok: bool)
      modifies this
      ensures ok <==> ParseTokens(tokens0).Some?
      ensures ok ==> pipeline == ParseTokens(tokens0).value && currentCommand == None
      ensures !ok ==> var p := Run(Start, tokens0).p; pipeline == p.nodes && currentCommand == p.current
    {
      hide Run, MatchEnvVar;
      currentCommand, pipeline := None, [];
      var tokens := tokens0;
      var mode, envVars: map<string, string> := Begin, map[];
      while tokens != []
        invariant ModeOk(Parser(mode, envVars, currentCommand, pipeline))
        invariant Run(Start, tokens0) == Run(Parser(mode, envVars, currentCommand, pipeline), tokens)
        decreases |tokens|
      {
        ghost var p := Parser(mode, envVars, currentCommand, pipeline);
        RunUnfolds(p, tokens);
        var token := tokens[0];
        tokens := tokens[1..];
        match mode {
          case Begin =>
            var envVarMatch := MatchEnvVar(token);
            if envVarMatch.Some? {
              envVars := envVars[envVarMatch.value.0 := envVarMatch.value.1];
            } else if currentCommand.Some? {
              return false;
            } else if token == "cd" {
              currentCommand := Some(Chdir(None));
              if envVars != map[] {
                return false;
              }
              mode := InChdir;
            } else {
              currentCommand := Some(NewCommand(token));
              if envVars != map[] {
                currentCommand := Some(currentCommand.value.(envVars := envVars));
                envVars := map[];
              }
              mode := InCommand;
            }
          case InCommand =>
            if token == ">" {
              mode := AfterOut;
            } else if token == "2>" {
              mode := AfterErr;
            } else if token == "2>&1" {
              if currentCommand.value.stderr != Inherit {
                return false;
              }
              currentCommand := Some(currentCommand.value.(stderr := ToStdout));
            } else if token == "<" {
              mode := AfterIn;
            } else if token == "|" {
              if currentCommand.value.stdout != Inherit {
                return false;
              }
              currentCommand := Some(currentCommand.value.(stdout := ToPipe));
              var _ := CommitCommand();
              pipeline := pipeline + [Pipe];
              mode := Begin;
            } else if token == "&&" {
              var _ := CommitCommand();
              pipeline := pipeline + [And];
              mode := Begin;
            } else if token == "||" {
              var _ := CommitCommand();
              pipeline := pipeline + [Or];
              mode := Begin;
            } else {
              currentCommand := Some(currentCommand.value.(argv := currentCommand.value.argv + [token]));
            }
          case InChdir =>
            if token == "&&" {
              var _ := CommitCommand();
              pipeline := pipeline + [And];
              mode := Begin;
            } else {
              if currentCommand.value.dir.Some? {
                return false;
              }
              currentCommand := Some(Chdir(Some(token)));
            }
          case AfterOut =>
            if currentCommand.value.stdout != Inherit {
              return false;
            }
            currentCommand := Some(currentCommand.value.(stdout := File(token)));
            mode := InCommand;
          case AfterErr =>
            if currentCommand.value.stderr != Inherit {
              return false;
            }
            currentCommand := Some(currentCommand.value.(stderr := File(token)));
            mode := InCommand;
          case AfterIn =>
            if currentCommand.value.stdin != Inherit {
              return false;
            }
            currentCommand := Some(currentCommand.value.(stdin := File(token)));
            mode := InCommand;
        }
        assert Step(p, token) == Going(Parser(mode, envVars, currentCommand, pipeline));
      }
      RunUnfolds(Parser(mode, envVars, currentCommand, pipeline), tokens);
      ok := CommitCommand();
    }
  }
}
