# ru_shell command parser, AST nodes, pipeline stream and grep conversion

ru_shell is a small interactive shell. A lexer is meant to turn a command line into tokens; its
scanner in `src/lexer/lexer.rs` has no body yet. Recursive-descent parsing functions turn the
tokens into command AST nodes: `ls`, `grep` and `cat` become execution nodes. A pipe `|` is meant to
give a chain node with a source and a destination: `tests/parser_test.rs:59-72` expects one, the
executor has a `"|"` arm for chain nodes (`src/executor/executor.rs:50-53`), and
`src/executor/pipeline.rs:41-52` reads the two stages from it. No function in the source builds
one yet. An executor then converts the nodes into runnable commands. Pipeline stages pass text to each other through an in-memory stream.

This project models four parts of that system and proves what they do:

- The per-command parsing functions of `src/parser/parsing_func.rs`. `ParsingFunc.Parser` is a
  class with the token sequence, a cursor `pos` and an error list. Its methods have the source's
  loops. Each method is proved to compute what a function of module `Grammar` describes. Module
  `GrammarProperties` proves the grammar's properties on those functions: how option values are
  read, which tokens a loop consumes and where it stops, the round trip from comma-separated path
  tokens to path strings, the pattern errors, and the outcome of each command.
- The AST nodes of `src/parser/cmds_ast_node.rs`. `CmdsAstNode.CommandNode` is a class whose
  command type selects the execution or the chain behaviour. Option insertion is specified by
  `InsertAll`, with lemmas for the keys it adds, "the last pair wins" and "other keys are left
  alone".
- The pipeline stream of `src/stream/pipeline_stream.rs`. `PipelineStream.PipeLineStream` is a
  message buffer, and `Joined` is the function that defines the text it renders.
- The grep conversion of `src/executor/grep.rs`. `GrepExecutor.FromValues` and `FromNode` take the
  pattern from the first value and the file from the second. Lemmas connect them to the node the
  grep parser builds.

Module `Scenarios` feeds concrete command lines, already split into tokens, through the parser
class.

The parser's input is the token sequence, which ends with the lexer's `Eof` token
(`Tokens.WellFormed`). `next_token` moves the cursor forward one token, but stays on that final
`Eof` (`Grammar.Next`). In `parse_path` the lexer's `peek_token` look-ahead ends the loop on the
last token. The model checks the same thing as "a token follows the current one". Because the last
token is `Eof`, which is never part of a path, this never changes what is read.

The three option loops of `parse_ls_cmd`, `parse_grep_cmd` and `parse_cat_cmd` differ only in
their option tables. They are modelled as one method, `ParseOptions(cmd)`. `Grammar.OptionTable`
holds the three tables. Every option in them, and every unknown option, calls
`parse_option(false)`, except `--depth` of `ls`, which calls `parse_option(true)`. The loop uses
that rule, `Grammar.TakesValue`, and `Grammar.OptionTablesAgree` proves it is what the tables
say.

## Model

| member | source | states |
|---|---|---|
| CmdsAstNode.CommandNode.NewExe | src/parser/cmds_ast_node.rs:17-24 | a new execution node keeps the given token, has type `ExtCommand`, an empty option map and no values |
| CmdsAstNode.CommandNode.NewChain | src/parser/cmds_ast_node.rs:92-99 | a new chain node keeps the given token, has type `ChainCommand` and has no source and no destination |
| CmdsAstNode.CommandNode.SetOptions | src/parser/cmds_ast_node.rs:36-40 | on an execution node the option map becomes the old map with every pair inserted in list order; on a chain node nothing changes |
| CmdsAstNode.InsertAllKeys | src/parser/cmds_ast_node.rs:36-40 | after the insertions the keys are the old keys plus every key named by a pair |
| CmdsAstNode.InsertAllLastWins | src/parser/cmds_ast_node.rs:36-40 | a key given several times maps to the value of its last pair |
| CmdsAstNode.InsertAllUntouched | src/parser/cmds_ast_node.rs:36-40 | a key that no pair names keeps its old value, or stays absent |
| CmdsAstNode.CommandNode.GetOption | src/parser/cmds_ast_node.rs:42-44 | there is a result exactly when the node is an execution node and the key is in its map, and the result is the mapped value; a chain node always gives none |
| CmdsAstNode.CommandNode.AddValue | src/parser/cmds_ast_node.rs:46-52 | on an execution node the value goes at the end of the existing values, and absent values become a one-element list; a chain node is unchanged |
| CmdsAstNode.CommandNode.SetValues | src/parser/cmds_ast_node.rs:54-60 | on an execution node the old values, or none, are followed by the new ones in order; a chain node is unchanged |
| CmdsAstNode.CommandNode.GetValues | src/parser/cmds_ast_node.rs:62-64 | an execution node gives its values; a chain node gives none |
| CmdsAstNode.CommandNode.SetSource | src/parser/cmds_ast_node.rs:136-138 | a chain node's source becomes the argument, while its destination and everything else stay unchanged; an execution node's source stays none |
| CmdsAstNode.CommandNode.GetSource | src/parser/cmds_ast_node.rs:140-142 | a chain node gives its source; an execution node gives none |
| CmdsAstNode.CommandNode.SetDestination | src/parser/cmds_ast_node.rs:144-146 | a chain node's destination becomes the argument, while its source stays unchanged; an execution node's destination stays none |
| CmdsAstNode.CommandNode.GetDestination | src/parser/cmds_ast_node.rs:148-150 | a chain node gives its destination; an execution node gives none |
| Grammar.Next | src/parser/parsing_func.rs:195 | the cursor moves forward one token, or stays on the final token |
| Grammar.ReadOption | src/parser/parsing_func.rs:193-214 | reading an option never moves the cursor backwards, and it always moves forward unless it is on the final token |
| Grammar.OptionTablesAgree | src/parser/parsing_func.rs:35-63 | an option asks for a value exactly when its arm of the command's table says so, and an option no table names takes the fallback arm, which reads no value; of all three tables only `--depth` of `ls` asks for one |
| Grammar.ReadOptionsTurn | src/parser/parsing_func.rs:34-63 | one turn of the option loop moves the option at the cursor from what is still to be read to what has been read, and leaves the loop's outcome unchanged |
| Grammar.ReadOptions | src/parser/parsing_func.rs:26-33 | the option loop never moves the cursor backwards, and it stops on a token that is not an option, which it leaves unconsumed |
| Grammar.ReadRun | src/parser/parsing_func.rs:287-299 | the gluing loop stops on a token that cannot be part of a path, and leaves it unconsumed |
| Grammar.ReadPath | src/parser/parsing_func.rs:249-272 | a path that starts on a path part is the glued run of path parts from there |
| Grammar.ReadPathsTurn | src/parser/parsing_func.rs:228-238 | one turn of the path loop moves the path at the cursor to what has been read; after a comma the rest is still to be read, and otherwise the loop's outcome is complete |
| Grammar.ReadPaths | src/parser/parsing_func.rs:217-246 | the path loop stops on a token that cannot be part of a path |
| Grammar.ReadPattern | src/parser/parsing_func.rs:275-310 | the pattern step never moves the cursor backwards |
| Grammar.ReadCommand | src/parser/parsing_func.rs:18-74 | a command parse never moves the cursor backwards |
| ParsingFunc.Parser.constructor | src/parser/parser.rs:16-27 | a parser starts on the first token with no errors |
| ParsingFunc.Parser.NextToken | src/parser/parsing_func.rs:22 | the cursor moves as `Grammar.Next` says |
| ParsingFunc.Parser.CollectError | src/parser/parsing_func.rs:131 | the message goes at the end of the error list |
| ParsingFunc.Parser.ParseOption | src/parser/parsing_func.rs:193-214 | the option and value read, and the new cursor, are those of `Grammar.ReadOption` |
| ParsingFunc.Parser.ParseOptions | src/parser/parsing_func.rs:26-64 | the options read, in order, and the new cursor are those of `Grammar.ReadOptions` |
| ParsingFunc.Parser.ParsePath | src/parser/parsing_func.rs:249-272 | the path read and the new cursor are those of `Grammar.ReadPath` |
| ParsingFunc.Parser.ParsePaths | src/parser/parsing_func.rs:217-246 | the result is none exactly when `Grammar.ReadPaths` reads no path, and otherwise holds its paths; the cursor ends where that function ends |
| ParsingFunc.Parser.ParsePattern | src/parser/parsing_func.rs:275-310 | the result and the new cursor are those of `Grammar.ReadPattern`; an error appends exactly its message, and success appends nothing |
| ParsingFunc.Parser.ParseLsCmd | src/parser/parsing_func.rs:18-74 | always returns a newly allocated execution node equal to what `Grammar.ReadCommand` describes for `ls`, and leaves the error list alone |
| ParsingFunc.Parser.ParseCatCmd | src/parser/parsing_func.rs:144-189 | likewise for `cat` |
| ParsingFunc.Parser.ParseFilesCmd | src/parser/parsing_func.rs:65-73 | the shared body of `ls` and `cat`: a node with the token, the inserted options and the paths if there are any |
| ParsingFunc.Parser.ParseGrepCmd | src/parser/parsing_func.rs:82-136 | the node, or its absence, is what `Grammar.ReadCommand` describes for `grep`, and the errors appended are exactly that function's errors |
| GrammarProperties.ReadOptionBare | src/parser/parsing_func.rs:193-198 | with no value wanted, an option takes exactly its own token and has an empty value |
| GrammarProperties.ReadOptionValued | src/parser/parsing_func.rs:199-211 | with a value wanted, one optional `=` is skipped; a literal or number that follows becomes the value and is consumed; otherwise the value is empty and nothing more is consumed |
| GrammarProperties.DepthValueForms | src/parser/parsing_func.rs:199-211 | `--depth 3` and `--depth=3` give the same option and value |
| GrammarProperties.ReadOptionsFlags | src/parser/parsing_func.rs:91-117 | for `grep` and `cat` the loop consumes exactly the leading option tokens, producing one pair with an empty value per token, in order |
| GrammarProperties.ReadOptionsRecordsAll | src/parser/parsing_func.rs:26-64 | the recorded option names are exactly the option tokens passed over, in order, known or unknown; a non-empty value occurs only for an option that `TakesValue` |
| GrammarProperties.ReadRunGlue | src/parser/parsing_func.rs:253-269 | on a maximal run of path parts the gluing loop yields their literals concatenated with no separator, and stops right after the run |
| GrammarProperties.ReadPathsNone | src/parser/parsing_func.rs:241-245 | no path is read exactly when the current token cannot start one, and then nothing is consumed |
| GrammarProperties.ReadPathsSingle | src/parser/parsing_func.rs:220-239 | one group of path parts, optionally followed by a single comma, is read as one path |
| GrammarProperties.ReadPathsHead | src/parser/parsing_func.rs:233-238 | when more groups follow, the first path is followed by what the loop reads after the comma |
| GrammarProperties.ReadPathsRoundTrip | src/parser/parsing_func.rs:217-246 | groups of path parts joined by commas are read back as the list of each group's glued literals; a trailing comma is consumed too |
| GrammarProperties.ReadPatternUnquoted | src/parser/parsing_func.rs:277-282 | without an opening quote the step gives the missing-pattern error and leaves the cursor where it was |
| GrammarProperties.ReadPatternQuoted | src/parser/parsing_func.rs:284-309 | a quote, path parts and a closing quote give the parts glued together, so `""` gives the empty pattern; any other token in place of the closing quote gives the missing-right-quote error |
| GrammarProperties.FilesCommandOutcome | src/parser/parsing_func.rs:65-73 | `ls` and `cat` always produce a node and report no error; the node has no values exactly when no path follows the options, and otherwise holds the paths |
| GrammarProperties.GrepCommandOutcome | src/parser/parsing_func.rs:118-135 | `grep` has no node exactly when the pattern step failed; otherwise its values are the pattern followed by the paths, and a missing path is reported as "Grep command needs a path" while the node is kept; at most one error is reported |
| PipelineStream.PipeLineStream.constructor | src/stream/pipeline_stream.rs:9-13 | a new stream holds no messages |
| PipelineStream.PipeLineStream.Input | src/stream/pipeline_stream.rs:26-28 | the message goes at the end of the buffer, and earlier messages are unchanged |
| PipelineStream.PipeLineStream.JointData | src/stream/pipeline_stream.rs:16-22 | the result is every buffered message followed by `"\n\r"`, oldest first, and the buffer is not changed |
| PipelineStream.PipeLineStream.Output | src/stream/pipeline_stream.rs:30-34 | the result is the joined buffer, and the buffer is then empty |
| PipelineStream.JoinedAppend | src/stream/pipeline_stream.rs:18-20 | joining two buffers one after the other gives the same text as joining their concatenation |
| PipelineStream.JoinedLength | src/stream/pipeline_stream.rs:18-20 | the output's length is the sum over the messages of their length plus two |
| PipelineStream.TwoMessagesThenDrain | tests/stream_test.rs:7-11 | two messages in, then output, gives both messages, each terminated; a second output right after gives `""` |
| GrepExecutor.NewGrepCmd | src/executor/grep.rs:12-17 | the command keeps the pattern and the file path text unchanged |
| GrepExecutor.FromValues | src/executor/grep.rs:29-48 | the pattern is the first value, or `""` when there is none; the file is the second value, or `""` when there is none; absent values count as an empty list |
| GrepExecutor.FromNode | src/executor/grep.rs:26-49 | an execution node converts its stored values; a chain node, which has no values, gives the empty pattern and file |
| GrepExecutor.FromValuesDefaults | src/executor/grep.rs:29-44 | no values, or an empty list of them, gives an empty pattern and an empty file |
| GrepExecutor.FromValuesPatternOnly | src/executor/grep.rs:35-44 | a single value becomes the pattern, and the file is empty |
| GrepExecutor.FromValuesIgnoresRest | src/executor/grep.rs:35-48 | the first two values become the pattern and the file, and later values are ignored |
| GrepExecutor.GrepFromParsedCommand | src/executor/grep.rs:26-49 | on any node the grep parser builds, the converted pattern is the quoted pattern, and the file is the first path, or empty when there is no path |
| GrepExecutor.GrepFromBuiltNode | src/executor/grep.rs:29-32 | converting a node the parser built is the same as converting the values that `Grammar` describes for it |
| Scenarios.LsLinePaths | src/parser/parsing_func.rs:217-246 | in `ls -l a/b.c,d/e` the paths read are `a/b.c` and `d/e` |
| Scenarios.ParseLsLine | src/parser/parsing_func.rs:18-74 | parsing `ls -l a/b.c,d/e` gives a node with the flag `-l` having an empty value, the two paths as values, and no error |
| Scenarios.ParseLsAssignedDepth | tests/parser_test.rs:60-72 | parsing `ls --tree --depth=3` gives `--tree` with an empty value, `--depth` with value `3`, and no values |
| Scenarios.ParseGrepWithoutPattern | src/parser/parsing_func.rs:121-124 | parsing `grep -i -n -r` gives no node and exactly the missing-pattern error |
| Scenarios.ParseGrepWithoutPath | src/parser/parsing_func.rs:125-133 | parsing `grep -i -n -r "main"` keeps the node, with values `["main"]`, and reports exactly the missing-path error |
| Scenarios.GrepLinePath | src/parser/parsing_func.rs:249-272 | the path in `grep "main" src/main.rs` is read whole |
| Scenarios.ParseAndConvertGrep | src/executor/grep.rs:26-49 | parsing and converting `grep "main" src/main.rs` gives the command with pattern `main` and file `src/main.rs`, and no error |

## Left out

- The lexer is not part of this model. Its scanner in `src/lexer/lexer.rs` has an empty body. The parser's input is the token sequence instead, and the scenario lines are tokenised by hand.
- Top-level dispatch and `cd` parsing are not modelled: `src/parser/parser.rs` sends `ls` and `cd` to functions with empty bodies and prints a message otherwise. No function in the source builds a chain from `|`, so only the chain node itself is modelled.
- The definitions of `next_token`, `collect_error` and `peek_token`, and the parser struct that `src/parser/parsing_func.rs` extends, are not part of this model. `Grammar.Next` models `next_token` from its use. An error is recorded as its message only, without the text of the offending tokens.
- The `parse_path` loop checks "a following token exists" where the source asks the lexer's `peek_token`. This is explained above.
- ParsingFunc.Parser.ParsePath: the source returns an `Option` that is always `Some`; the model returns the string itself.
- `RefCell`, `Rc` and `Box<dyn …>` are not modelled. Chain children are plain references. The deep clone that `get_source`, `get_destination` and `clone_cmd` make on every read is not modelled: the getters return the stored reference.
- `token_type` and `cmd_type` of the nodes are plain field reads (`token.tokenType`, `cmdType`) and have no members of their own.
- `HashMap` iteration order is not modelled. The option map is a Dafny `map`.
- File and console I/O is not modelled: the REPL, the console stream and the file operator.
- The executor layer is not modelled, beyond the grep conversion. `execute` of `GrepCmd`, `LsCmd` and `CatCmd` is `todo!()`. `PipelineOperator` in `src/executor/pipeline.rs` only wires a source stage and a destination stage to one shared `PipeLineStream` and runs them in turn. `PathBuf::from` is taken as the identity on the path text.
- `src/parser/ast.rs` and `src/parser/mod.rs` hold an older `LsCommand` design that the execution node replaces, and are not modelled.
- The `is_empty` method of the stream interface has no implementation in `src/stream/pipeline_stream.rs`, and is not modelled.
- The lexer's `Eof` token is required to end the token sequence. The lexer is meant to end every sequence with `Eof`, as every expected token list in `tests/lexer_test.rs` does, so this does not exclude any input the parser is meant to receive.
