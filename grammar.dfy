/** The command grammar of src/parser/parsing_func.rs as functions of the token sequence and a
    cursor position. Each function returns what it reads and where it leaves the cursor; the
    parser class in module ParsingFunc is proved to compute exactly these. */
module Grammar {
  import opened Wrappers
  import opened Tokens
  import opened CmdsAstNode

  /** What a parse step read, and the cursor position it ends on. */
  datatype Parsed<T> = Parsed(value: T, end: nat)

  /** The commands with a parsing function of their own. */
  datatype Command = LsCmd | GrepCmd | CatCmd

  /** The node a command parse builds: the command token, the option map and the value list. */
  datatype ExeSpec = ExeSpec(token: Token, options: map<string, string>, values: Option<seq<string>>)

  /** A command parse: the node (absent when construction was aborted), the final cursor and
      the error messages it appended. */
  datatype CommandParse = CommandParse(node: Option<ExeSpec>, end: nat, errors: seq<string>)

  const MissingPattern := "Missing pattern. You can use `\"` to quote the pattern."
  const MissingRightQuote := "Invalid pattern, missing right quotation mark."
  const GrepNeedsPath := "Grep command needs a path"

  /** `next_token`: one token forward, except that the final end-of-input token stays current. */
  function Next(ts: seq<Token>, p: nat): (q: nat)
    requires p < |ts|
    ensures q < |ts|
    ensures q == p + 1 || (q == p && p == |ts| - 1)
  {
    if p + 1 < |ts| then p + 1 else p
  }

  /** The option tables of `parse_ls_cmd`, `parse_grep_cmd` and `parse_cat_cmd`: each option a
      command names, mapped to whether its arm asks `parse_option` for a value. */
  function OptionTable(cmd: Command): (t: map<string, bool>)
  {
    match cmd
    case LsCmd =>
      map["-l" := false, "--long" := false, "-a" := false, "--all" := false,
          "-h" := false, "--human-readable" := false, "-r" := false, "--reverse" := false,
          "-t" := false, "--time" := false, "-s" := false, "--size" := false,
          "--tree" := false, "--depth" := true]
    case GrepCmd =>
      map["-i" := false, "--ignore-case" := false, "-v" := false, "--invert-match" := false,
          "-c" := false, "--count" := false, "-n" := false, "--line-number" := false]
    case CatCmd =>
      map["-n" := false, "--number" := false, "-b" := false, "--number-nonblank" := false,
          "-s" := false, "--squeeze-blank" := false, "-E" := false, "--show-ends" := false]
  }

  /** The choice the option tables make: only `--depth` of `ls` asks for a value; every other
      option, named in a table or taking the fallback arm, is a bare flag. */
  predicate TakesValue(cmd: Command, opt: string) {
    cmd == LsCmd && opt == "--depth"
  }

  /** `TakesValue` is what the tables say: the option's own arm when the table names it, and the
      fallback arm, which reads no value, otherwise. */
  lemma OptionTablesAgree(cmd: Command, opt: string)
    ensures TakesValue(cmd, opt) <==> opt in OptionTable(cmd) && OptionTable(cmd)[opt]
  {
  }

  /** `parse_option`: the option literal, then, if a value is wanted, an optional `=` and at most
      one literal or number as the value (otherwise the value is empty). */
  function ReadOption(ts: seq<Token>, p: nat, withValue: bool): (r: Parsed<(string, string)>)
    requires WellFormed(ts) && p < |ts|
    ensures p <= r.end < |ts|
    ensures p < |ts| - 1 ==> p < r.end
  {
    var p1 := Next(ts, p);
    if !withValue then Parsed((ts[p].literal, ""), p1)
    else
      var p2 := if ts[p1].tokenType.Assignment? then Next(ts, p1) else p1;
      if IsValue(ts[p2].tokenType) then Parsed((ts[p].literal, ts[p2].literal), Next(ts, p2))
      else Parsed((ts[p].literal, ""), p2)
  }

  /** The option loop shared by the command parsers: every option token, in order, until the
      first token that is not an option, which is left unconsumed. */
  function ReadOptions(ts: seq<Token>, p: nat, cmd: Command): (r: Parsed<seq<(string, string)>>)
    requires WellFormed(ts) && p < |ts|
    ensures p <= r.end < |ts|
    ensures !IsParam(ts[r.end].tokenType)
    decreases |ts| - p
  {
    if !IsParam(ts[p].tokenType) then Parsed([], p)
    else
      var o := ReadOption(ts, p, TakesValue(cmd, ts[p].literal));
      var rest := ReadOptions(ts, o.end, cmd);
      Parsed([o.value] + rest.value, rest.end)
  }

  /** One turn of the option loop: reading the option at `p` moves it from what is still to be
      read to what has been read, `acc`, and leaves the loop's overall outcome `total` alone. */
  lemma ReadOptionsTurn(ts: seq<Token>, p: nat, cmd: Command, acc: seq<(string, string)>,
                        total: Parsed<seq<(string, string)>>)
    requires WellFormed(ts) && p < |ts| && IsParam(ts[p].tokenType)
    requires acc + ReadOptions(ts, p, cmd).value == total.value && ReadOptions(ts, p, cmd).end == total.end
    ensures var o := ReadOption(ts, p, TakesValue(cmd, ts[p].literal));
      var rest := ReadOptions(ts, o.end, cmd);
      (acc + [o.value]) + rest.value == total.value && rest.end == total.end
  {
    var o := ReadOption(ts, p, TakesValue(cmd, ts[p].literal));
    var rest := ReadOptions(ts, o.end, cmd);
    assert (acc + [o.value]) + rest.value == acc + ([o.value] + rest.value);
  }

  /** The gluing loop of `parse_path` and `parse_pattern`: the literals of the path parts from
      `p` on, concatenated without separator, up to the first other token. */
  function ReadRun(ts: seq<Token>, p: nat): (r: Parsed<string>)
    requires WellFormed(ts) && p < |ts|
    ensures p <= r.end < |ts|
    ensures !IsPathPart(ts[r.end].tokenType)
    decreases |ts| - p
  {
    if IsPathPart(ts[p].tokenType) then
      var rest := ReadRun(ts, p + 1);
      Parsed(ts[p].literal + rest.value, rest.end)
    else Parsed("", p)
  }

  /** `parse_path`: the current token's literal, then the run of path parts after it. */
  function ReadPath(ts: seq<Token>, p: nat): (r: Parsed<string>)
    requires WellFormed(ts) && p < |ts|
    ensures p <= r.end < |ts|
    ensures IsPathPart(ts[p].tokenType) ==> r == ReadRun(ts, p)
  {
    var rest := ReadRun(ts, Next(ts, p));
    Parsed(ts[p].literal + rest.value, rest.end)
  }

  /** `parse_paths`: paths separated by single commas, until a token that cannot start a path. */
  function ReadPaths(ts: seq<Token>, p: nat): (r: Parsed<seq<string>>)
    requires WellFormed(ts) && p < |ts|
    ensures p <= r.end < |ts|
    ensures !IsPathPart(ts[r.end].tokenType)
    decreases |ts| - p
  {
    if !IsPathPart(ts[p].tokenType) then Parsed([], p)
    else
      var path := ReadPath(ts, p);
      if !ts[path.end].tokenType.Comma? then Parsed([path.value], path.end)
      else
        var rest := ReadPaths(ts, Next(ts, path.end));
        Parsed([path.value] + rest.value, rest.end)
  }

  /** One turn of the path loop: the path read at `p` moves from what is still to be read to
      what has been read, `acc`; after a comma the loop goes on, otherwise it is complete. */
  lemma ReadPathsTurn(ts: seq<Token>, p: nat, acc: seq<string>, total: Parsed<seq<string>>)
    requires WellFormed(ts) && p < |ts| && IsPathPart(ts[p].tokenType)
    requires acc + ReadPaths(ts, p).value == total.value && ReadPaths(ts, p).end == total.end
    ensures var path := ReadPath(ts, p);
      if ts[path.end].tokenType.Comma? then
        var rest := ReadPaths(ts, Next(ts, path.end));
        (acc + [path.value]) + rest.value == total.value && rest.end == total.end
      else acc + [path.value] == total.value && path.end == total.end
  {
    var path := ReadPath(ts, p);
    if ts[path.end].tokenType.Comma? {
      var rest := ReadPaths(ts, Next(ts, path.end));
      assert (acc + [path.value]) + rest.value == acc + ([path.value] + rest.value);
    } else {
      assert [path.value] + [] == [path.value];
    }
  }

  /** `parse_pattern`: an opening quote, the glued run of path parts, a closing quote. */
  function ReadPattern(ts: seq<Token>, p: nat): (r: Parsed<Result<string>>)
    requires WellFormed(ts) && p < |ts|
    ensures p <= r.end < |ts|
  {
    if !ts[p].tokenType.Quote? then Parsed(Err(MissingPattern), p)
    else
      var body := ReadRun(ts, Next(ts, p));
      if ts[body.end].tokenType.Quote? then Parsed(Ok(body.value), Next(ts, body.end))
      else Parsed(Err(MissingRightQuote), body.end)
  }

  /** `parse_ls_cmd`, `parse_grep_cmd` and `parse_cat_cmd`: the command token, its options, for
      `grep` the quoted pattern, then the paths. */
  function ReadCommand(ts: seq<Token>, p: nat, cmd: Command): (r: CommandParse)
    requires WellFormed(ts) && p < |ts|
    ensures p <= r.end < |ts|
  {
    var opts := ReadOptions(ts, Next(ts, p), cmd);
    var options := InsertAll(map[], opts.value);
    if cmd == GrepCmd then
      var pat := ReadPattern(ts, opts.end);
      match pat.value
      case Err(msg) => CommandParse(None, pat.end, [msg])
      case Ok(pattern) =>
        var paths := ReadPaths(ts, pat.end);
        if paths.value == [] then
          CommandParse(Some(ExeSpec(ts[p], options, Some([pattern]))), paths.end, [GrepNeedsPath])
        else
          CommandParse(Some(ExeSpec(ts[p], options, Some([pattern] + paths.value))), paths.end, [])
    else
      var paths := ReadPaths(ts, opts.end);
      var values := if paths.value == [] then None else Some(paths.value);
      CommandParse(Some(ExeSpec(ts[p], options, values)), paths.end, [])
  }
}
