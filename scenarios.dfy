/** Whole command lines, already split into tokens, run through the parser. */
module Scenarios {
  import opened Wrappers
  import opened Tokens
  import opened CmdsAstNode
  import opened Grammar
  import opened ParsingFunc
  import GrepExecutor

  const EofToken := Token(Eof, "")

  /** The tokens of `ls -l a/b.c,d/e`. */
  const LsLine := [Token(Ls, "ls"), Token(ShortParam, "-l"),
                   Token(Literal, "a"), Token(Slash, "/"), Token(Literal, "b"), Token(Dot, "."), Token(Literal, "c"),
                   Token(Comma, ","), Token(Literal, "d"), Token(Slash, "/"), Token(Literal, "e"), EofToken]

  /** The comma splits the path parts of `ls -l a/b.c,d/e` into two whole paths. */
  lemma LsLinePaths()
    ensures WellFormed(LsLine) && ReadPaths(LsLine, 2) == Parsed(["a/b.c", "d/e"], 11)
  {
    var ts := LsLine;
    assert ReadRun(ts, 11) == Parsed("", 11);
    assert "e" + "" == "e" && "/" + "e" == "/e" && "d" + "/e" == "d/e";
    assert ReadRun(ts, 10) == Parsed("e", 11);
    assert ReadRun(ts, 9) == Parsed("/e", 11);
    assert ReadPath(ts, 8) == Parsed("d/e", 11);
    assert ReadPaths(ts, 8) == Parsed(["d/e"], 11);
    assert ReadRun(ts, 7) == Parsed("", 7);
    assert "c" + "" == "c" && "." + "c" == ".c" && "b" + ".c" == "b.c" && "/" + "b.c" == "/b.c" && "a" + "/b.c" == "a/b.c";
    assert ReadRun(ts, 6) == Parsed("c", 7);
    assert ReadRun(ts, 5) == Parsed(".c", 7);
    assert ReadRun(ts, 4) == Parsed("b.c", 7);
    assert ReadRun(ts, 3) == Parsed("/b.c", 7);
    assert ReadPath(ts, 2) == Parsed("a/b.c", 7);
    assert ["a/b.c"] + ["d/e"] == ["a/b.c", "d/e"];
  }

  /** `ls -l a/b.c,d/e`: the flag is recorded with the empty value, and both paths are the
      node's values. */
  method ParseLsLine() returns (node: Option<CommandNode>, errors: seq<string>)
    ensures node.Some? && errors == []
    ensures node.value.GetOption("-l") == Some("")
    ensures node.value.GetValues() == Some(["a/b.c", "d/e"])
  {
    var ts := LsLine;
    LsLinePaths();
    assert ReadOptions(ts, 2, LsCmd) == Parsed([], 2);
    assert "-l" != "--depth";
    assert ReadOption(ts, 1, false) == Parsed(("-l", ""), 2);
    assert [("-l", "")] + [] == [("-l", "")];
    assert ReadOptions(ts, 1, LsCmd) == Parsed([("-l", "")], 2);
    assert InsertAll(map[], [("-l", "")]) == map["-l" := ""];
    var parser := new Parser(ts);
    node := parser.ParseLsCmd();
    errors := parser.errors;
  }

  /** `ls --tree --depth=3`: the `=` form gives the same value, and with no path the node has no
      values at all. */
  method ParseLsAssignedDepth() returns (node: Option<CommandNode>, errors: seq<string>)
    ensures node.Some? && errors == []
    ensures node.value.GetOption("--tree") == Some("") && node.value.GetOption("--depth") == Some("3")
    ensures node.value.GetValues() == None
  {
    var ts := [Token(Ls, "ls"), Token(LongParam, "--tree"), Token(LongParam, "--depth"), Token(Assignment, "="),
               Token(Num, "3"), EofToken];
    assert ReadOptions(ts, 5, LsCmd) == Parsed([], 5);
    assert ReadOption(ts, 2, true) == Parsed(("--depth", "3"), 5);
    assert [("--depth", "3")] + [] == [("--depth", "3")];
    assert ReadOptions(ts, 2, LsCmd) == Parsed([("--depth", "3")], 5);
    assert "--tree" != "--depth" by { assert "--tree"[2] != "--depth"[2]; }
    assert ReadOption(ts, 1, false) == Parsed(("--tree", ""), 2);
    assert [("--tree", "")] + [("--depth", "3")] == [("--tree", ""), ("--depth", "3")];
    assert ReadOptions(ts, 1, LsCmd) == Parsed([("--tree", ""), ("--depth", "3")], 5);
    assert ReadPaths(ts, 5) == Parsed([], 5);
    assert InsertAll(map[], [("--tree", ""), ("--depth", "3")]) == map["--tree" := "", "--depth" := "3"];
    var parser := new Parser(ts);
    node := parser.ParseLsCmd();
    errors := parser.errors;
  }

  /** `grep -i -n -r`: no quoted pattern, so no node and exactly one error. */
  method ParseGrepWithoutPattern() returns (node: Option<CommandNode>, errors: seq<string>)
    ensures node.None? && errors == [MissingPattern]
  {
    var ts := [Token(Grep, "grep"), Token(ShortParam, "-i"), Token(ShortParam, "-n"), Token(ShortParam, "-r"), EofToken];
    var parser := new Parser(ts);
    node := parser.ParseGrepCmd();
    errors := parser.errors;
  }

  /** `grep -i -n -r "main"`: the node keeps the pattern, and the missing path is the one error. */
  method ParseGrepWithoutPath() returns (node: Option<CommandNode>, errors: seq<string>)
    ensures node.Some? && errors == [GrepNeedsPath]
    ensures node.value.GetValues() == Some(["main"])
    ensures node.value.GetOption("-n") == Some("")
  {
    var ts := [Token(Grep, "grep"), Token(ShortParam, "-i"), Token(ShortParam, "-n"), Token(ShortParam, "-r"),
               Token(Quote, "\""), Token(Literal, "main"), Token(Quote, "\""), EofToken];
    assert ReadOptions(ts, 4, GrepCmd) == Parsed([], 4);
    assert ReadOption(ts, 3, false) == Parsed(("-r", ""), 4);
    assert [("-r", "")] + [] == [("-r", "")];
    assert ReadOptions(ts, 3, GrepCmd) == Parsed([("-r", "")], 4);
    assert ReadOption(ts, 2, false) == Parsed(("-n", ""), 3);
    assert [("-n", "")] + [("-r", "")] == [("-n", ""), ("-r", "")];
    assert ReadOptions(ts, 2, GrepCmd) == Parsed([("-n", ""), ("-r", "")], 4);
    assert ReadOption(ts, 1, false) == Parsed(("-i", ""), 2);
    assert [("-i", "")] + [("-n", ""), ("-r", "")] == [("-i", ""), ("-n", ""), ("-r", "")];
    assert ReadOptions(ts, 1, GrepCmd) == Parsed([("-i", ""), ("-n", ""), ("-r", "")], 4);
    assert ReadRun(ts, 6) == Parsed("", 6);
    assert "main" + "" == "main";
    assert ReadRun(ts, 5) == Parsed("main", 6);
    assert ReadPattern(ts, 4) == Parsed(Ok("main"), 7);
    assert ReadPaths(ts, 7) == Parsed([], 7);
    var parser := new Parser(ts);
    node := parser.ParseGrepCmd();
    errors := parser.errors;
  }

  /** The tokens of `grep "main" src/main.rs`. */
  const GrepLine := [Token(Grep, "grep"), Token(Quote, "\""), Token(Literal, "main"), Token(Quote, "\""),
                     Token(Literal, "src"), Token(Slash, "/"), Token(Literal, "main"), Token(Dot, "."), Token(Literal, "rs"),
                     EofToken]

  /** The path after the pattern of `grep "main" src/main.rs` stays whole. */
  lemma GrepLinePath()
    ensures WellFormed(GrepLine) && ReadPaths(GrepLine, 4) == Parsed(["src/main.rs"], 9)
  {
    var ts := GrepLine;
    assert ReadRun(ts, 9) == Parsed("", 9);
    assert "rs" + "" == "rs" && "." + "rs" == ".rs" && "main" + ".rs" == "main.rs" && "/" + "main.rs" == "/main.rs";
    assert "src" + "/main.rs" == "src/main.rs";
    assert ReadRun(ts, 8) == Parsed("rs", 9);
    assert ReadRun(ts, 7) == Parsed(".rs", 9);
    assert ReadRun(ts, 6) == Parsed("main.rs", 9);
    assert ReadRun(ts, 5) == Parsed("/main.rs", 9);
    assert ReadPath(ts, 4) == Parsed("src/main.rs", 9);
  }

  /** `grep "main" src/main.rs`: the executor's command searches the file for the pattern. */
  method ParseAndConvertGrep() returns (cmd: GrepExecutor.GrepCmd, errors: seq<string>)
    ensures cmd == GrepExecutor.GrepCmd("main", "src/main.rs") && errors == []
  {
    var ts := GrepLine;
    GrepLinePath();
    assert ReadOptions(ts, 1, GrepCmd) == Parsed([], 1);
    assert ReadRun(ts, 3) == Parsed("", 3);
    assert "main" + "" == "main";
    assert ReadRun(ts, 2) == Parsed("main", 3);
    assert ReadPattern(ts, 1) == Parsed(Ok("main"), 4);
    assert ["main"] + ["src/main.rs"] == ["main", "src/main.rs"];
    var parser := new Parser(ts);
    var node := parser.ParseGrepCmd();
    errors := parser.errors;
    cmd := GrepExecutor.FromNode(node.value);
  }
}
