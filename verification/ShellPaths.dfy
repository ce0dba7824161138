/** The directories commands are run in. */
module ShellPaths {
  import opened Wrappers
  import opened Paths
  import opened ShellParser
  import opened ShellGrammar
  import opened ShellSentences
  import opened ShellRun

  predicate IsAbsolute(path: string) {
    path != [] && path[0] == '/'
  }

  /** Joining an absolute path forgets what it is joined to; joining a relative one puts its pieces
      behind those there are. */
  lemma JoinedPieces(a: string, b: string)
    ensures IsAbsolute(b) ==> JoinPath(a, b) == b
    ensures !IsAbsolute(b) ==> Pieces(JoinPath(a, b)) == Pieces(a) + Pieces(b)
    ensures !IsAbsolute(b) && a != [] ==> (IsAbsolute(JoinPath(a, b)) <==> IsAbsolute(a))
  {
    if !IsAbsolute(b) {
      NoPieces();
      if a == [] {
        assert a + b == b && Pieces(a) + Pieces(b) == Pieces(b);
      } else if a[|a| - 1] == '/' {
        var front := a[..|a| - 1];
        assert a == front + "/" + "" && a + b == front + "/" + b;
        PiecesAtSlash(front, "");
        PiecesAtSlash(front, b);
        assert Pieces(front) + [] == Pieces(front);
      } else {
        PiecesAtSlash(a, b);
      }
    }
  }

  ghost function AllPieces(dirs: seq<string>): seq<string> {
    if dirs == [] then [] else Pieces(dirs[0]) + AllPieces(dirs[1..])
  }

  /** Entering relative directories one after the other goes down by all their pieces. */
  lemma {:induction false} EnteredPieces(cwd: string, dirs: seq<string>)
    requires forall i :: 0 <= i < |dirs| ==> !IsAbsolute(dirs[i])
    ensures Pieces(Enter(cwd, dirs)) == Pieces(cwd) + AllPieces(dirs)
    decreases |dirs|
  {
    if dirs == [] {
      assert Pieces(cwd) + [] == Pieces(cwd);
    } else {
      hide JoinPath, Pieces, IsAbsolute;
      JoinedPieces(cwd, dirs[0]);
      EnteredPieces(JoinPath(cwd, dirs[0]), dirs[1..]);
      Associative(Pieces(cwd), Pieces(dirs[0]), AllPieces(dirs[1..]));
    }
  }

  lemma Associative<T>(a: seq<T>, b: seq<T>, c: seq<T>)
    ensures a + b + c == a + (b + c)
  {
  }

  /** What the command line "cd dir && command" runs: the one command, in ./dir, or in dir itself if
      that is absolute. */
  lemma ChdirThenCommand(dir: string, u: Unit, status: Oracle)
    requires dir != "&&" && u.Cmd? && UnitFits(u, None)
    ensures var tokens := ["cd", dir, "&&"] + UnitTokens(u);
      var there := if IsAbsolute(dir) then dir else "./" + dir;
      var launch := LaunchOf(NodeOf(u, None), false, there);
      && ParseTokens(tokens) == Some([Chdir(Some(dir)), And, NodeOf(u, None)])
      && launch.cwd == Some(there)
      && RunFrom(status, ParseTokens(tokens).value, false, ".", [], []) == Status(status([launch]), [launch])
  {
    var s := Sentence([(Cd(Some(dir)), And)], u, None);
    assert UnitFits(Cd(Some(dir)), Some(And)) && Valid(s);
    SentenceRead(s);
    var cmd := NodeOf(u, None);
    assert cmd.Command?;
    hide UnitFits, UnitTokens, NodeOf, ParseTokens;
    ChdirSentence(dir, u);
    CommandAfterChdir(dir, cmd, status);
  }

  lemma ChdirSentence(dir: string, u: Unit)
    ensures var s := Sentence([(Cd(Some(dir)), And)], u, None);
      OpsOk(s.front) && Tokens(s) == ["cd", dir, "&&"] + UnitTokens(u)
      && Nodes(s) == [Chdir(Some(dir)), And, NodeOf(u, None)]
  {
    var s := Sentence([(Cd(Some(dir)), And)], u, None);
    assert s.front[..0] == [];
    assert FrontTokens(s.front) == ["cd", dir, "&&"];
    assert FrontNodes(s.front) == [Chdir(Some(dir)), And];
    hide UnitTokens, NodeOf;
  }

  lemma CommandAfterChdir(dir: string, cmd: Node, status: Oracle)
    requires cmd.Command?
    ensures var there := if IsAbsolute(dir) then dir else "./" + dir;
      var launch := LaunchOf(cmd, false, there);
      && launch.cwd == Some(there)
      && RunFrom(status, [Chdir(Some(dir)), And, cmd], false, ".", [], []) == Status(status([launch]), [launch])
  {
    var there := if IsAbsolute(dir) then dir else "./" + dir;
    assert JoinPath(".", dir) == there;
    assert there != "." && LaunchOf(cmd, false, there).cwd == Some(there);
    var nodes := [Chdir(Some(dir)), And, cmd];
    hide JoinPath, LaunchOf;
    assert nodes[2..] == [cmd];
    var launch := LaunchOf(cmd, false, there);
    assert [] + [launch] == [launch];
    assert RunFrom(status, [cmd], false, there, [], []) == Status(status([launch]), [launch]);
  }
}
