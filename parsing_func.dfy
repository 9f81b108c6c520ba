/** The command parser of src/parser/parsing_func.rs: a cursor over the lexer's tokens that only
    moves forward, and an error list that only grows. Every parsing method is proved to do what
    the matching function of module Grammar describes. */
module ParsingFunc {
  import opened Wrappers
  import opened Tokens
  import opened CmdsAstNode
  import opened Grammar

  /** A fresh execution node holding exactly what `spec` describes. */
  ghost predicate Builds(node: Option<CommandNode>, spec: Option<ExeSpec>)
    reads if node.Some? then {node.value} else {}
  {
    && (node.Some? <==> spec.Some?)
    && (node.Some? ==>
          && node.value.Valid()
          && node.value.cmdType == ExtCommand
          && node.value.token == spec.value.token
          && node.value.options == spec.value.options
          && node.value.values == spec.value.values
          && node.value.source == None
          && node.value.destination == None)
  }

  class Parser {
    const tokens: seq<Token>
    var pos: nat
    var errors: seq<string>

    ghost predicate Valid()
      reads this
    {
      WellFormed(tokens) && pos < |tokens|
    }

    /** The parser over one line's tokens, with the cursor on the first token. */
    constructor (ts: seq<Token>)
      requires WellFormed(ts)
      ensures Valid()
      ensures tokens == ts && pos == 0 && errors == []
    {
      tokens := ts;
      pos := 0;
      errors := [];
    }

    /** `next_token` */
    method NextToken()
      requires Valid()
      modifies this`pos
      ensures Valid()
      ensures pos == Next(tokens, old(pos))
    {
      if pos + 1 < |tokens| {
        pos := pos + 1;
      }
    }

    /** `collect_error`, keeping the message only. */
    method CollectError(msg: string)
      modifies this`errors
      ensures errors == old(errors) + [msg]
    {
      errors := errors + [msg];
    }

    /** `parse_option` */
    method ParseOption(withValue: bool) returns (option: string, value: string)
      requires Valid()
      modifies this`pos
      ensures Valid()
      ensures var r := ReadOption(tokens, old(pos), withValue);
        (option, value) == r.value && pos == r.end
    {
      option := tokens[pos].literal;
      NextToken();
      value := "";
      if withValue {
        // An `=` between the option and its value is optional.
        if tokens[pos].tokenType.Assignment? {
          NextToken();
        }
        if IsValue(tokens[pos].tokenType) {
          value := tokens[pos].literal;
          NextToken();
        }
      }
    }

    /** The option loop of `parse_ls_cmd`, `parse_grep_cmd` and `parse_cat_cmd`. Their option
        tables differ only in which options read a value (`TakesValue`). */
    method ParseOptions(cmd: Command) returns (opts: seq<(string, string)>)
      requires Valid()
      modifies this`pos
      ensures Valid()
      ensures var r := ReadOptions(tokens, old(pos), cmd); opts == r.value && pos == r.end
    {
      ghost var start := pos;
      opts := [];
      assert [] + ReadOptions(tokens, pos, cmd).value == ReadOptions(tokens, pos, cmd).value;
      // The source also stops at Eof, which is not an option token.
      while IsParam(tokens[pos].tokenType)
        invariant Valid() && start <= pos
        invariant opts + ReadOptions(tokens, pos, cmd).value == ReadOptions(tokens, start, cmd).value
        invariant ReadOptions(tokens, pos, cmd).end == ReadOptions(tokens, start, cmd).end
        decreases |tokens| - pos
      {
        ReadOptionsTurn(tokens, pos, cmd, opts, ReadOptions(tokens, start, cmd));
        var option, value := ParseOption(TakesValue(cmd, tokens[pos].literal));
        opts := opts + [(option, value)];
      }
    }

    /** `parse_path`. The lexer's look-ahead ends the loop on the last token. */
    method ParsePath() returns (path: string)
      requires Valid()
      modifies this`pos
      ensures Valid()
      ensures var r := ReadPath(tokens, old(pos)); path == r.value && pos == r.end
    {
      ghost var start := pos;
      path := tokens[pos].literal;
      NextToken();
      ghost var first := pos;
      while pos + 1 < |tokens| && IsPathPart(tokens[pos].tokenType)
        invariant Valid() && first <= pos
        invariant tokens[start].literal + ReadRun(tokens, first).value == path + ReadRun(tokens, pos).value
        invariant ReadRun(tokens, first).end == ReadRun(tokens, pos).end
        decreases |tokens| - pos
      {
        path := path + tokens[pos].literal;
        NextToken();
      }
    }

    /** `parse_paths` */
    method ParsePaths() returns (paths: Option<seq<string>>)
      requires Valid()
      modifies this`pos
      ensures Valid()
      ensures var r := ReadPaths(tokens, old(pos));
        paths == (if r.value == [] then None else Some(r.value)) && pos == r.end
    {
      ghost var start := pos;
      var found: seq<string> := [];
      assert [] + ReadPaths(tokens, pos).value == ReadPaths(tokens, pos).value;
      while true
        invariant Valid() && start <= pos
        invariant found + ReadPaths(tokens, pos).value == ReadPaths(tokens, start).value
        invariant ReadPaths(tokens, pos).end == ReadPaths(tokens, start).end
        invariant found == [] ==> pos == start
        decreases |tokens| - pos
      {
        if !IsPathPart(tokens[pos].tokenType) {
          assert found + [] == found;
          break;
        }
        ReadPathsTurn(tokens, pos, found, ReadPaths(tokens, start));
        var path := ParsePath();
        found := found + [path];
        // Skip the comma and read the next path; stop at any other token.
        if !tokens[pos].tokenType.Comma? {
          break;
        }
        NextToken();
      }
      paths := if found == [] then None else Some(found);
    }

    /** `parse_pattern` */
    method ParsePattern() returns (pattern: Option<string>)
      requires Valid()
      modifies this`pos, this`errors
      ensures Valid()
      ensures var r := ReadPattern(tokens, old(pos));
        && pos == r.end
        && (r.value.Ok? ==> pattern == Some(r.value.value) && errors == old(errors))
        && (r.value.Err? ==> pattern == None && errors == old(errors) + [r.value.msg])
    {
      ghost var start := pos;
      if tokens[pos].tokenType.Quote? {
        NextToken();
      } else {
        CollectError(MissingPattern);
        return None;
      }
      ghost var first := pos;
      assert "" + ReadRun(tokens, pos).value == ReadRun(tokens, pos).value;
      var text := "";
      while IsPathPart(tokens[pos].tokenType)
        invariant Valid() && first <= pos && errors == old(errors)
        invariant ReadRun(tokens, first).value == text + ReadRun(tokens, pos).value
        invariant ReadRun(tokens, first).end == ReadRun(tokens, pos).end
        decreases |tokens| - pos
      {
        text := text + tokens[pos].literal;
        NextToken();
      }
      assert ReadRun(tokens, pos) == Parsed("", pos);
      assert text + "" == text;
      if tokens[pos].tokenType.Quote? {
        NextToken();
      } else {
        CollectError(MissingRightQuote);
        return None;
      }
      pattern := Some(text);
    }

    /** `parse_ls_cmd`: never fails and never records an error. */
    method ParseLsCmd() returns (node: Option<CommandNode>)
      requires Valid()
      modifies this`pos
      ensures Valid()
      ensures node.Some? && fresh(node.value)
      ensures var r := ReadCommand(tokens, old(pos), LsCmd); Builds(node, r.node) && pos == r.end
    {
      node := ParseFilesCmd(LsCmd);
    }

    /** `parse_cat_cmd`: never fails and never records an error. */
    method ParseCatCmd() returns (node: Option<CommandNode>)
      requires Valid()
      modifies this`pos
      ensures Valid()
      ensures node.Some? && fresh(node.value)
      ensures var r := ReadCommand(tokens, old(pos), CatCmd); Builds(node, r.node) && pos == r.end
    {
      node := ParseFilesCmd(CatCmd);
    }

    /** The body `parse_ls_cmd` and `parse_cat_cmd` share: options, then optional paths. */
    method ParseFilesCmd(cmd: Command) returns (node: Option<CommandNode>)
      requires Valid() && cmd != GrepCmd
      modifies this`pos
      ensures Valid()
      ensures node.Some? && fresh(node.value)
      ensures var r := ReadCommand(tokens, old(pos), cmd); Builds(node, r.node) && pos == r.end
    {
      var exe := new CommandNode.NewExe(tokens[pos]);
      NextToken();
      var opts := ParseOptions(cmd);
      exe.SetOptions(opts);
      var paths := ParsePaths();
      match paths {
        case Some(ps) =>
          assert [] + ps == ps;
          exe.SetValues(ps);
        case None =>
      }
      node := Some(exe);
    }

    /** `parse_grep_cmd`: aborts without a node when the pattern is malformed, and records an
        error, but keeps the node, when no path follows the pattern. */
    method ParseGrepCmd() returns (node: Option<CommandNode>)
      requires Valid()
      modifies this`pos, this`errors
      ensures Valid()
      ensures node.Some? ==> fresh(node.value)
      ensures var r := ReadCommand(tokens, old(pos), GrepCmd);
        Builds(node, r.node) && pos == r.end && errors == old(errors) + r.errors
    {
      var grep := new CommandNode.NewExe(tokens[pos]);
      NextToken();
      var opts := ParseOptions(GrepCmd);
      grep.SetOptions(opts);
      var pattern := ParsePattern();
      if pattern.None? {
        return None;
      }
      assert [] + [pattern.value] == [pattern.value];
      grep.AddValue(pattern.value);
      var paths := ParsePaths();
      match paths {
        case Some(ps) => grep.SetValues(ps);
        case None => CollectError(GrepNeedsPath);
      }
      node := Some(grep);
    }
  }
}
