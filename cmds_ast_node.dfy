/** The command AST nodes (src/parser/cmds_ast_node.rs, src/parser/command_ast.rs). */
module CmdsAstNode {
  import opened Wrappers
  import opened Tokens

  /** The discriminant of a node: an execution node or a chain (pipe) node. */
  datatype CommandType = ExtCommand | ChainCommand

  /** The option map after inserting every pair of `opts`, in order, into `m`. */
  function InsertAll(m: map<string, string>, opts: seq<(string, string)>): (r: map<string, string>)
  {
    if opts == [] then m
    else InsertAll(m, opts[..|opts| - 1])[opts[|opts| - 1].0 := opts[|opts| - 1].1]
  }

  /** The keys named by a list of option pairs. */
  function KeysOf(opts: seq<(string, string)>): (r: set<string>)
  {
    set i | 0 <= i < |opts| :: opts[i].0
  }

  /** Inserting adds exactly the keys of the pairs. */
  lemma {:induction false} InsertAllKeys(m: map<string, string>, opts: seq<(string, string)>)
    ensures InsertAll(m, opts).Keys == m.Keys + KeysOf(opts)
  {
    if opts != [] {
      var init := opts[..|opts| - 1];
      InsertAllKeys(m, init);
      assert KeysOf(opts) == KeysOf(init) + {opts[|opts| - 1].0} by {
        forall k | k in KeysOf(opts) ensures k in KeysOf(init) + {opts[|opts| - 1].0} {
          var i :| 0 <= i < |opts| && opts[i].0 == k;
          if i < |opts| - 1 { assert init[i] == opts[i]; }
        }
        forall k | k in KeysOf(init) ensures k in KeysOf(opts) {
          var i :| 0 <= i < |init| && init[i].0 == k;
          assert opts[i] == init[i];
        }
      }
    }
  }

  /** For a key given more than once, the last pair naming it wins. */
  lemma {:induction false} InsertAllLastWins(m: map<string, string>, opts: seq<(string, string)>, i: nat)
    requires i < |opts|
    requires forall j :: i < j < |opts| ==> opts[j].0 != opts[i].0
    ensures opts[i].0 in InsertAll(m, opts) && InsertAll(m, opts)[opts[i].0] == opts[i].1
  {
    var init := opts[..|opts| - 1];
    if i < |opts| - 1 {
      assert init[i] == opts[i];
      forall j | i < j < |init| ensures init[j].0 != init[i].0 {
        assert init[j] == opts[j];
      }
      InsertAllLastWins(m, init, i);
    }
  }

  /** A key no pair names keeps whatever `m` gave it, including its absence. */
  lemma {:induction false} InsertAllUntouched(m: map<string, string>, opts: seq<(string, string)>, k: string)
    requires forall i :: 0 <= i < |opts| ==> opts[i].0 != k
    ensures k in InsertAll(m, opts) <==> k in m
    ensures k in m ==> InsertAll(m, opts)[k] == m[k]
  {
    if opts != [] {
      var init := opts[..|opts| - 1];
      forall i | 0 <= i < |init| ensures init[i].0 != k {
        assert init[i] == opts[i];
      }
      InsertAllUntouched(m, init, k);
    }
  }

  /** One AST node, keyed by its command type. An execution node carries an option map and an
      optional value list; a chain node carries a source and a destination. The operations a
      variant does not support change nothing and read as absent. */
  class CommandNode {
    const cmdType: CommandType
    const token: Token
    var options: map<string, string>
    var values: Option<seq<string>>
    var source: Option<CommandNode>
    var destination: Option<CommandNode>

    /** Each variant only ever holds its own kind of contents. */
    ghost predicate Valid()
      reads this
    {
      && (cmdType == ExtCommand ==> source == None && destination == None)
      && (cmdType == ChainCommand ==> options == map[] && values == None)
    }

    /** `ExeCommandAstNode::new` */
    constructor NewExe(t: Token)
      ensures Valid()
      ensures cmdType == ExtCommand && token == t
      ensures options == map[] && values == None
      ensures source == None && destination == None
    {
      cmdType := ExtCommand;
      token := t;
      options := map[];
      values := None;
      source := None;
      destination := None;
    }

    /** `ChainCommandAstNode::new` */
    constructor NewChain(t: Token)
      ensures Valid()
      ensures cmdType == ChainCommand && token == t
      ensures options == map[] && values == None
      ensures source == None && destination == None
    {
      cmdType := ChainCommand;
      token := t;
      options := map[];
      values := None;
      source := None;
      destination := None;
    }

    /** Inserts every pair into the option map of an execution node; a later pair overwrites an
        earlier one with the same key. */
    method SetOptions(opts: seq<(string, string)>)
      requires Valid()
      modifies this`options
      ensures Valid()
      ensures options == if cmdType == ExtCommand then InsertAll(old(options), opts) else old(options)
    {
      if cmdType == ExtCommand {
        for i := 0 to |opts|
          invariant options == InsertAll(old(options), opts[..i])
        {
          assert opts[..i + 1][..i] == opts[..i];
          options := options[opts[i].0 := opts[i].1];
        }
        assert opts[..|opts|] == opts;
      }
    }

    /** The value of an option, if an execution node holds it. */
    function GetOption(k: string): (r: Option<string>)
      reads this
      ensures r.Some? <==> cmdType == ExtCommand && k in options
      ensures r.Some? ==> r.value == options[k]
    {
      match cmdType
      case ChainCommand => None
      case ExtCommand => if k in options then Some(options[k]) else None
    }

    /** Appends one value at the end of an execution node's list, creating the list if absent. */
    method AddValue(v: string)
      requires Valid()
      modifies this`values
      ensures Valid()
      ensures cmdType == ExtCommand ==> values == Some(OrEmpty(old(values)) + [v])
      ensures cmdType == ChainCommand ==> values == old(values)
    {
      if cmdType == ExtCommand {
        match values
        case Some(vs) => values := Some(vs + [v]);
        case None =>
          assert [] + [v] == [v];
          values := Some([v]);
      }
    }

    /** Extends an execution node's list with `vs`, or sets it to `vs` if absent. */
    method SetValues(vs: seq<string>)
      requires Valid()
      modifies this`values
      ensures Valid()
      ensures cmdType == ExtCommand ==> values == Some(OrEmpty(old(values)) + vs)
      ensures cmdType == ChainCommand ==> values == old(values)
    {
      if cmdType == ExtCommand {
        match values
        case Some(old_vs) => values := Some(old_vs + vs);
        case None =>
          assert [] + vs == vs;
          values := Some(vs);
      }
    }

    /** The value list of an execution node; a chain node has none. */
    function GetValues(): (r: Option<seq<string>>)
      reads this
      ensures cmdType == ChainCommand ==> r == None
      ensures cmdType == ExtCommand ==> r == values
    {
      if cmdType == ChainCommand then None else values
    }

    /** Stores the data source of a chain node. */
    method SetSource(s: Option<CommandNode>)
      requires Valid()
      modifies this`source
      ensures Valid()
      ensures GetSource() == if cmdType == ChainCommand then s else None
      ensures source == if cmdType == ChainCommand then s else old(source)
    {
      if cmdType == ChainCommand {
        source := s;
      }
    }

    /** The data source of a chain node; an execution node has none. */
    function GetSource(): (r: Option<CommandNode>)
      reads this
      ensures cmdType == ExtCommand ==> r == None
      ensures cmdType == ChainCommand ==> r == source
    {
      if cmdType == ChainCommand then source else None
    }

    /** Stores the data destination of a chain node. */
    method SetDestination(d: Option<CommandNode>)
      requires Valid()
      modifies this`destination
      ensures Valid()
      ensures GetDestination() == if cmdType == ChainCommand then d else None
      ensures destination == if cmdType == ChainCommand then d else old(destination)
    {
      if cmdType == ChainCommand {
        destination := d;
      }
    }

    /** The data destination of a chain node; an execution node has none. */
    function GetDestination(): (r: Option<CommandNode>)
      reads this
      ensures cmdType == ExtCommand ==> r == None
      ensures cmdType == ChainCommand ==> r == destination
    {
      if cmdType == ChainCommand then destination else None
    }
  }
}
