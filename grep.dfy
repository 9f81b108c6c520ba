/** The conversion of a parsed `grep` node into the command the executor runs. */
module GrepExecutor {
  import opened Wrappers
  import opened Tokens
  import opened CmdsAstNode
  import Grammar
  import opened ParsingFunc

  /** `GrepCmd`: the pattern and the file to search; the file path is kept as its text. */
  datatype GrepCmd = GrepCmd(pattern: string, file: string)

  /** `GrepCmd::new`. */
  function NewGrepCmd(pattern: string, file: string): (g: GrepCmd)
    ensures g.pattern == pattern && g.file == file
  {
    GrepCmd(pattern, file)
  }

  /** The `From` conversion on a node's values: the first value is the pattern, the second the
      file, each `""` when missing. */
  function FromValues(values: Option<seq<string>>): (r: GrepCmd)
    ensures r.pattern == if values.Some? && |values.value| > 0 then values.value[0] else ""
    ensures r.file == if values.Some? && |values.value| > 1 then values.value[1] else ""
  {
    var vs := match values case Some(v) => v case None => [];
    var pattern := if |vs| > 0 then vs[0] else "";
    var file := if |vs| > 1 then vs[1] else "";
    NewGrepCmd(pattern, file)
  }

  /** The `From` conversion on a node. */
  function FromNode(n: CommandNode): (r: GrepCmd)
    reads n
    ensures n.cmdType == ExtCommand ==> r == FromValues(n.values)
    ensures n.cmdType == ChainCommand ==> r == GrepCmd("", "")
  {
    FromValues(n.GetValues())
  }

  /** A node with no values, or an empty list of them, gives the empty pattern and file. */
  lemma FromValuesDefaults()
    ensures FromValues(None) == GrepCmd("", "")
    ensures FromValues(Some([])) == GrepCmd("", "")
  {
  }

  /** A single value is the pattern; the file stays empty. */
  lemma FromValuesPatternOnly(pattern: string)
    ensures FromValues(Some([pattern])) == GrepCmd(pattern, "")
  {
  }

  /** The pattern and the first path are taken; any later values are ignored. */
  lemma FromValuesIgnoresRest(pattern: string, file: string, rest: seq<string>)
    ensures FromValues(Some([pattern, file] + rest)) == GrepCmd(pattern, file)
  {
  }

  /** On what `parse_grep_cmd` builds, the conversion finds the quoted pattern and the first path;
      without a path (the case reported as an error) the file is empty. */
  lemma GrepFromParsedCommand(ts: seq<Token>, p: nat)
    requires WellFormed(ts) && p < |ts|
    ensures var r := Grammar.ReadCommand(ts, p, Grammar.GrepCmd);
      var opts := Grammar.ReadOptions(ts, Grammar.Next(ts, p), Grammar.GrepCmd);
      var pat := Grammar.ReadPattern(ts, opts.end);
      var paths := Grammar.ReadPaths(ts, pat.end);
      r.node.Some? ==>
        && pat.value.Ok?
        && FromValues(r.node.value.values).pattern == pat.value.value
        && FromValues(r.node.value.values).file == (if paths.value == [] then "" else paths.value[0])
  {
    var opts := Grammar.ReadOptions(ts, Grammar.Next(ts, p), Grammar.GrepCmd);
    var pat := Grammar.ReadPattern(ts, opts.end);
    if pat.value.Ok? {
      var paths := Grammar.ReadPaths(ts, pat.end);
      if paths.value != [] {
        assert ([pat.value.value] + paths.value)[1] == paths.value[0];
      }
    }
  }

  /** The conversion of a node the parser built agrees with the conversion of its description. */
  lemma GrepFromBuiltNode(n: CommandNode, spec: Grammar.ExeSpec)
    requires Builds(Some(n), Some(spec))
    ensures FromNode(n) == FromValues(spec.values)
  {
  }
}
