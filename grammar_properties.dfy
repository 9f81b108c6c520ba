/** Properties of the command grammar: what each parsing step reads and leaves, stated against
    independent descriptions of the token layouts it accepts. */
module GrammarProperties {
  import opened Wrappers
  import opened Tokens
  import opened CmdsAstNode
  import opened Grammar

  /** The literals of `g`, concatenated without separator. */
  function Concat(g: seq<Token>): (r: string)
  {
    if g == [] then "" else g[0].literal + Concat(g[1..])
  }

  ghost predicate AllPathParts(g: seq<Token>) {
    forall k :: 0 <= k < |g| ==> IsPathPart(g[k].tokenType)
  }

  /** The tokens `g` are written at position `p` of `ts`. */
  ghost predicate WrittenAt(ts: seq<Token>, p: nat, g: seq<Token>) {
    p + |g| <= |ts| && forall k :: 0 <= k < |g| ==> ts[p + k] == g[k]
  }

  /** Groups of path tokens written one after the other with a comma token between groups. */
  function Render(groups: seq<seq<Token>>, comma: Token): (r: seq<Token>)
  {
    if |groups| == 0 then []
    else if |groups| == 1 then groups[0]
    else groups[0] + [comma] + Render(groups[1..], comma)
  }

  /** The path each group spells. */
  function Glued(groups: seq<seq<Token>>): (r: seq<string>)
  {
    if groups == [] then [] else [Concat(groups[0])] + Glued(groups[1..])
  }

  /** The option names of a list of option pairs, in order. */
  function Names(opts: seq<(string, string)>): (r: seq<string>)
  {
    if opts == [] then [] else [opts[0].0] + Names(opts[1..])
  }

  /** The literals of the option tokens among positions `i` to `j`, in order. */
  function ParamLiterals(ts: seq<Token>, i: nat, j: nat): (r: seq<string>)
    requires i <= j <= |ts|
    decreases j - i
  {
    if i == j then []
    else (if IsParam(ts[i].tokenType) then [ts[i].literal] else []) + ParamLiterals(ts, i + 1, j)
  }

  // ---------------------------------------------------------------- parse_option

  /** A value-less option consumes exactly its own token and has the empty value. */
  lemma ReadOptionBare(ts: seq<Token>, p: nat)
    requires WellFormed(ts) && p < |ts| && IsParam(ts[p].tokenType)
    ensures ReadOption(ts, p, false) == Parsed((ts[p].literal, ""), p + 1)
  {
  }

  /** A valued option skips at most one `=`, then takes at most one literal or number; the
      tokens it passes over are exactly those. */
  lemma ReadOptionValued(ts: seq<Token>, p: nat)
    requires WellFormed(ts) && p < |ts| && IsParam(ts[p].tokenType)
    ensures var r := ReadOption(ts, p, true); var q := if ts[p + 1].tokenType.Assignment? then p + 2 else p + 1;
      && q < |ts|
      && r.value.0 == ts[p].literal
      && (IsValue(ts[q].tokenType) ==> r == Parsed((ts[p].literal, ts[q].literal), q + 1))
      && (!IsValue(ts[q].tokenType) ==> r == Parsed((ts[p].literal, ""), q))
  {
  }

  /** `--depth 3` and `--depth=3` give the same value. */
  lemma DepthValueForms(opt: Token, eq: Token, v: Token, rest: seq<Token>)
    requires IsParam(opt.tokenType) && eq.tokenType.Assignment? && IsValue(v.tokenType) && WellFormed(rest)
    ensures ReadOption([opt, v] + rest, 0, true) == Parsed((opt.literal, v.literal), 2)
    ensures ReadOption([opt, eq, v] + rest, 0, true) == Parsed((opt.literal, v.literal), 3)
  {
    ReadOptionValued([opt, v] + rest, 0);
    ReadOptionValued([opt, eq, v] + rest, 0);
  }

  // ---------------------------------------------------------------- the option loop

  /** For `grep` and `cat` every option is a bare flag: the loop consumes exactly the leading
      option tokens, one pair each, in order. */
  lemma {:induction false} ReadOptionsFlags(ts: seq<Token>, p: nat, cmd: Command)
    requires WellFormed(ts) && p < |ts| && cmd != LsCmd
    ensures ReadOptions(ts, p, cmd).end == p + |ReadOptions(ts, p, cmd).value|
    ensures forall k :: p <= k < ReadOptions(ts, p, cmd).end ==> IsParam(ts[k].tokenType)
    ensures forall i :: 0 <= i < |ReadOptions(ts, p, cmd).value| ==>
      ReadOptions(ts, p, cmd).value[i] == (ts[p + i].literal, "")
    decreases |ts| - p
  {
    var r := ReadOptions(ts, p, cmd);
    if IsParam(ts[p].tokenType) {
      var o := ReadOption(ts, p, TakesValue(cmd, ts[p].literal));
      assert o == Parsed((ts[p].literal, ""), p + 1);
      ReadOptionsFlags(ts, p + 1, cmd);
      var rest := ReadOptions(ts, p + 1, cmd);
      assert r.value == [o.value] + rest.value && r.end == rest.end;
      forall i | 0 <= i < |r.value| ensures r.value[i] == (ts[p + i].literal, "") {
        if i > 0 {
          assert r.value[i] == rest.value[i - 1];
          assert p + i == (p + 1) + (i - 1);
        }
      }
    }
  }

  /** Positions holding no option token contribute no option literal. */
  lemma {:induction false} ParamLiteralsSkip(ts: seq<Token>, i: nat, k: nat, j: nat)
    requires i <= k <= j <= |ts|
    requires forall m :: i <= m < k ==> !IsParam(ts[m].tokenType)
    ensures ParamLiterals(ts, i, j) == ParamLiterals(ts, k, j)
    decreases k - i
  {
    if i < k {
      ParamLiteralsSkip(ts, i + 1, k, j);
      assert [] + ParamLiterals(ts, i + 1, j) == ParamLiterals(ts, i + 1, j);
    }
  }

  /** Every option, known or unknown, is recorded in the order written; and only `--depth` of
      `ls` ever carries a value. */
  lemma {:induction false} ReadOptionsRecordsAll(ts: seq<Token>, p: nat, cmd: Command)
    requires WellFormed(ts) && p < |ts|
    ensures var r := ReadOptions(ts, p, cmd);
      && Names(r.value) == ParamLiterals(ts, p, r.end)
      && forall i :: 0 <= i < |r.value| && r.value[i].1 != "" ==> TakesValue(cmd, r.value[i].0)
    decreases |ts| - p
  {
    var r := ReadOptions(ts, p, cmd);
    if IsParam(ts[p].tokenType) {
      var o := ReadOption(ts, p, TakesValue(cmd, ts[p].literal));
      var rest := ReadOptions(ts, o.end, cmd);
      ReadOptionsRecordsAll(ts, o.end, cmd);
      assert forall m :: p + 1 <= m < o.end ==> !IsParam(ts[m].tokenType);
      ParamLiteralsSkip(ts, p + 1, o.end, r.end);
      assert r.value == [o.value] + rest.value;
      assert r.value[1..] == rest.value;
      forall i | 0 <= i < |r.value| && r.value[i].1 != "" ensures TakesValue(cmd, r.value[i].0) {
        if i > 0 { assert r.value[i] == rest.value[i - 1]; }
      }
    }
  }

  // ---------------------------------------------------------------- paths

  /** The gluing loop reads a maximal run of path parts and concatenates their literals. */
  lemma {:induction false} ReadRunGlue(ts: seq<Token>, p: nat, g: seq<Token>)
    requires WellFormed(ts) && AllPathParts(g)
    requires p + |g| < |ts| && WrittenAt(ts, p, g) && !IsPathPart(ts[p + |g|].tokenType)
    ensures ReadRun(ts, p) == Parsed(Concat(g), p + |g|)
    decreases |g|
  {
    if g != [] {
      assert ts[p + 0] == g[0];
      forall k | 0 <= k < |g[1..]| ensures ts[p + 1 + k] == g[1..][k] {
        assert ts[p + (k + 1)] == g[k + 1];
      }
      ReadRunGlue(ts, p + 1, g[1..]);
    }
  }

  /** No path is read (and nothing is consumed) exactly when the current token cannot start one. */
  lemma ReadPathsNone(ts: seq<Token>, p: nat)
    requires WellFormed(ts) && p < |ts|
    ensures ReadPaths(ts, p).value == [] <==> !IsPathPart(ts[p].tokenType)
    ensures ReadPaths(ts, p).value == [] ==> ReadPaths(ts, p).end == p
  {
  }

  /** Tokens written at `p` as `a + b` are `a` at `p` followed by `b`. */
  lemma WrittenAtSplit(ts: seq<Token>, p: nat, a: seq<Token>, b: seq<Token>)
    requires WrittenAt(ts, p, a + b)
    ensures WrittenAt(ts, p, a) && WrittenAt(ts, p + |a|, b)
  {
    forall k | 0 <= k < |a| ensures ts[p + k] == a[k] {
      assert (a + b)[k] == a[k];
    }
    forall k | 0 <= k < |b| ensures ts[p + |a| + k] == b[k] {
      assert ts[p + (|a| + k)] == (a + b)[|a| + k];
    }
  }

  /** One step of the path loop, once the first path is known to be the glued run `c` ending at `e`. */
  lemma ReadPathsStep(ts: seq<Token>, p: nat, c: string, e: nat)
    requires WellFormed(ts) && p < |ts| && IsPathPart(ts[p].tokenType) && ReadRun(ts, p) == Parsed(c, e)
    ensures e < |ts|
    ensures !ts[e].tokenType.Comma? ==> ReadPaths(ts, p) == Parsed([c], e)
    ensures ts[e].tokenType.Comma? ==>
      e + 1 < |ts| && ReadPaths(ts, p) == Parsed([c] + ReadPaths(ts, e + 1).value, ReadPaths(ts, e + 1).end)
  {
  }

  /** A single group of path parts, optionally followed by one comma, is one glued path. */
  lemma ReadPathsSingle(ts: seq<Token>, p: nat, g: seq<Token>)
    requires WellFormed(ts) && g != [] && AllPathParts(g)
    requires p + |g| < |ts| && WrittenAt(ts, p, g)
    requires var e := p + |g|;
      !IsPathPart(ts[e].tokenType) && (ts[e].tokenType.Comma? ==> e + 1 < |ts| && !IsPathPart(ts[e + 1].tokenType))
    ensures var e := p + |g|;
      ReadPaths(ts, p) == Parsed([Concat(g)], if ts[e].tokenType.Comma? then e + 1 else e)
  {
    assert ts[p + 0] == g[0];
    ReadRunGlue(ts, p, g);
    ReadPathsStep(ts, p, Concat(g), p + |g|);
    if ts[p + |g|].tokenType.Comma? {
      assert ReadPaths(ts, p + |g| + 1) == Parsed([], p + |g| + 1);
      assert [Concat(g)] + [] == [Concat(g)];
    }
  }

  ghost predicate PathGroups(groups: seq<seq<Token>>) {
    groups != [] && forall i :: 0 <= i < |groups| ==> groups[i] != [] && AllPathParts(groups[i])
  }

  /** With more than one group, the first glued path is followed by a comma and the rest. */
  lemma ReadPathsHead(ts: seq<Token>, p: nat, groups: seq<seq<Token>>, comma: Token)
    requires WellFormed(ts) && comma.tokenType.Comma? && PathGroups(groups) && |groups| > 1
    requires p + |Render(groups, comma)| < |ts| && WrittenAt(ts, p, Render(groups, comma))
    ensures var q := p + |groups[0]| + 1;
      && PathGroups(groups[1..])
      && q + |Render(groups[1..], comma)| == p + |Render(groups, comma)|
      && WrittenAt(ts, q, Render(groups[1..], comma))
      && ReadPaths(ts, p) == Parsed([Concat(groups[0])] + ReadPaths(ts, q).value, ReadPaths(ts, q).end)
  {
    var g := groups[0];
    var tail := Render(groups[1..], comma);
    assert g != [] && AllPathParts(g);
    assert Render(groups, comma) == g + ([comma] + tail);
    WrittenAtSplit(ts, p, g, [comma] + tail);
    WrittenAtSplit(ts, p + |g|, [comma], tail);
    assert ts[p + 0] == g[0];
    assert ts[p + |g| + 0] == [comma][0];
    ReadRunGlue(ts, p, g);
    ReadPathsStep(ts, p, Concat(g), p + |g|);
    forall i | 0 <= i < |groups[1..]| ensures groups[1..][i] != [] && AllPathParts(groups[1..][i]) {
      assert groups[1..][i] == groups[i + 1];
    }
  }

  /** Paths written as comma-separated groups of path parts parse back to the groups' glued
      literals. A single comma after the last path is consumed as well. */
  lemma {:induction false} ReadPathsRoundTrip(ts: seq<Token>, p: nat, groups: seq<seq<Token>>, comma: Token)
    requires WellFormed(ts) && comma.tokenType.Comma? && PathGroups(groups)
    requires p + |Render(groups, comma)| < |ts| && WrittenAt(ts, p, Render(groups, comma))
    requires var e := p + |Render(groups, comma)|;
      !IsPathPart(ts[e].tokenType) && (ts[e].tokenType.Comma? ==> e + 1 < |ts| && !IsPathPart(ts[e + 1].tokenType))
    ensures var e := p + |Render(groups, comma)|;
      ReadPaths(ts, p) == Parsed(Glued(groups), if ts[e].tokenType.Comma? then e + 1 else e)
    decreases |groups|
  {
    if |groups| == 1 {
      assert Render(groups, comma) == groups[0];
      assert Glued(groups) == [Concat(groups[0])];
      ReadPathsSingle(ts, p, groups[0]);
    } else {
      ReadPathsHead(ts, p, groups, comma);
      ReadPathsRoundTrip(ts, p + |groups[0]| + 1, groups[1..], comma);
      assert Glued(groups) == [Concat(groups[0])] + Glued(groups[1..]);
    }
  }

  // ---------------------------------------------------------------- parse_pattern

  /** Without an opening quote nothing is consumed and the missing-pattern error is reported. */
  lemma ReadPatternUnquoted(ts: seq<Token>, p: nat)
    requires WellFormed(ts) && p < |ts| && !ts[p].tokenType.Quote?
    ensures ReadPattern(ts, p) == Parsed(Err(MissingPattern), p)
  {
  }

  /** A quote, path parts, then a closing quote gives the parts glued together (so `""` gives the
      empty pattern); any other token in place of the closing quote is the missing-quote error. */
  lemma {:induction false} ReadPatternQuoted(ts: seq<Token>, p: nat, body: seq<Token>)
    requires WellFormed(ts) && AllPathParts(body)
    requires p + |body| + 1 < |ts| && ts[p].tokenType.Quote? && WrittenAt(ts, p + 1, body)
    requires !IsPathPart(ts[p + 1 + |body|].tokenType)
    ensures ts[p + 1 + |body|].tokenType.Quote? ==>
      ReadPattern(ts, p) == Parsed(Ok(Concat(body)), p + |body| + 2)
    ensures !ts[p + 1 + |body|].tokenType.Quote? ==>
      ReadPattern(ts, p) == Parsed(Err(MissingRightQuote), p + |body| + 1)
  {
    ReadRunGlue(ts, p + 1, body);
  }

  // ---------------------------------------------------------------- commands

  /** `ls` and `cat` always build a node and never report an error; the node has no values at
      all when no path follows the options. */
  lemma FilesCommandOutcome(ts: seq<Token>, p: nat, cmd: Command)
    requires WellFormed(ts) && p < |ts| && cmd != GrepCmd
    ensures var r := ReadCommand(ts, p, cmd);
      var opts := ReadOptions(ts, Next(ts, p), cmd);
      var paths := ReadPaths(ts, opts.end);
      && r.node.Some? && r.errors == [] && r.end == paths.end
      && r.node.value.token == ts[p]
      && r.node.value.options == InsertAll(map[], opts.value)
      && (r.node.value.values.None? <==> !IsPathPart(ts[opts.end].tokenType))
      && (r.node.value.values.Some? ==> r.node.value.values.value == paths.value)
  {
    ReadPathsNone(ts, ReadOptions(ts, Next(ts, p), cmd).end);
  }

  /** `grep` gives up without a node exactly when the pattern is malformed; otherwise its values
      are the pattern followed by the paths, and a missing path is reported but keeps the node.
      Either way at most one error is reported. */
  lemma GrepCommandOutcome(ts: seq<Token>, p: nat)
    requires WellFormed(ts) && p < |ts|
    ensures var r := ReadCommand(ts, p, GrepCmd);
      var opts := ReadOptions(ts, Next(ts, p), GrepCmd);
      var pat := ReadPattern(ts, opts.end);
      && |r.errors| <= 1
      && (r.node.None? <==> pat.value.Err?)
      && (pat.value.Err? ==> r.errors == [pat.value.msg] && r.end == pat.end)
      && (pat.value.Ok? ==>
            var paths := ReadPaths(ts, pat.end);
            && r.node.value.token == ts[p]
            && r.node.value.options == InsertAll(map[], opts.value)
            && r.node.value.values == Some([pat.value.value] + paths.value)
            && r.end == paths.end
            && (r.errors == [] <==> IsPathPart(ts[pat.end].tokenType))
            && (r.errors != [] ==> r.errors == [GrepNeedsPath]))
  {
    var opts := ReadOptions(ts, Next(ts, p), GrepCmd);
    var pat := ReadPattern(ts, opts.end);
    if pat.value.Ok? {
      ReadPathsNone(ts, pat.end);
      assert [pat.value.value] + [] == [pat.value.value];
    }
  }
}
