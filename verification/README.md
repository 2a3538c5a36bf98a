# Verified models of the ROS 2 client libraries

This project models five parts of the ROS 2 client libraries in Dafny and proves what they are for.

- **The YAML parameter reader** (`Yaml*.dfy`). The reader sees a stream of YAML events, never a tree. It keeps flags,
  depth and level counters, two namespace strings and a reused last parameter slot. It is proved to compute the recursive
  flattening of the document, and the link between its state and the open maps is proved at every event.
- **The remap pipeline** (`Lexer`, `Lookahead`, `RemapGrammar`, `RemapParser`, `Arguments`, `ExpandName`, `ExpandLoop`,
  `Remap`). Each
  layer refines a simple specification and uses the one below: a table-driven lexer whose cursor moves backwards, a two-slot
  lookahead buffer, a recursive-descent rule parser, the argument classifier, name expansion by repeated replacement and
  first-match remapping. `Remap.RemapFromCommandLine` joins them all.
- **The lifecycle state machine** (`Lifecycle*.dfy`): the registration index, the default graph, and runs of `change_state`
  requests of any length.
- **The action result protocol** (`Actions`, `ActionServer`): server, clients and a network that reorders and duplicates.
- Files named `...Meaning`, `...Values`, `...Text` and `...Design` say what these parts compute on the written texts, requests and
  callbacks themselves, without the functions that the other contracts share.
- **Type strings** of message files (`TypeStrings`): the parser and printer are inverse to each other.

Code that changes state in place is modelled by classes and loops whose contracts equate the new state with a specification
function of the old one; the lemmas are about those functions.

## Where the code and its promises part

Each point is a lemma or a method contract of the model. Where a promise fails, the exact condition under which it holds is
proved.

- A scalar parameter, between two entries or first in a nested map, is stored under its full name exactly when that name fits
  (`YamlNames.OverlongNameHitsPrevious`, `YamlNames.OverlongFirstNameHitsPrevious`). A longer key is dropped without an error.
  The scalar then overwrites the node's parameter before it; when the node has none yet, that value is an error. A map below
  such a key takes the parameter before it for its own key: that parameter is lost and its value stays under the name of the
  first inner key; when there is none, the count of parameters falls below zero (`YamlNames.OverlongMapTakesPrevious`,
  `YamlNames.OverlongFirstMapTakesPrevious`).
- Taking a name off a namespace undoes adding it exactly when the name holds no separator and the namespace does not end in
  one, or the namespace does and the name's only separator is its first character (`YamlMachine.PopUndoesPush`). So below the
  root key `/` the second node makes the reader look at the byte before an empty string (`YamlNames.SecondNodeBelowRoot`).
  Any other key with one separator at its end is read like the key without, from the first key below it on, exactly when that
  is not `ros__parameters`; a node's own key keeps the separator in its name and stays in the namespace of what follows
  (`YamlNames.SlashedKeyIsBareKey`).
- The number of nodes in a file is not guarded: a file of well-formed nodes is read as its flattening exactly when it has at
  most 256 of them (`YamlLimits.FileIsReadIffItFits`); node 257 goes behind the table (`YamlLimits.OneNodeTooMany`). The model
  has an `Undefined` outcome for this and for the previous point.
- `peek2` promises the next two lexemes; after `accept` has shifted a buffered second lexeme it repeats the first one
  (`Lookahead.PeekTwoAfterAccept`).
- A failed lexeme includes the terminator for exactly six texts, `~`, `\`, `__`, `__n`, `__no` and `__nod`
  (`Lexer.OverrunsExactly`). On these arguments, and no others, the rule parser's `peek2` reads behind the text; they are
  rejected all the same (`RemapParser.BeginRemapRule`).
- Values of substitutions may hold groups themselves. So long as those in reach are balanced, the expansion loop ends with a
  name exactly when every group in reach is known and no chain of groups comes back to itself, and the name is then the full
  expansion (`ExpandLoop.LoopEndsIff`, `ExpandLoop.LoopYieldsIff`). It is the one-pass result exactly when every group of the
  name stands for a text without braces (`ExpandLoop.LoopIsOnePassIff`). With a cycle and all groups known the loop goes on
  for ever (`ExpandLoop.LoopNeverFails`), for instance when the value of the first group mentions that group before any other
  (`ExpandLoop.SelfReferenceNeverEnds`).
- The topic-name check lets `{}` and `~a` pass (`ExpandName.CheckLetsPass`), while the expansion counts on non-empty groups.
  A passing name that starts with `~` goes on with a slash, or not at all, exactly when it has not two characters, and its
  groups are non-empty exactly when `{}` does not occur in it (`ExpandName.PassingNames`).
- When the first callback of a request accepted in a primary state returns a code other than success, failure and error, the
  node is left in error processing; such a code from the error callback leads to finalized (`LifecycleRuns.EndsPrimary`). A
  run is outside the primary states exactly when some first callback did so and no later request asked for an outcome of error
  processing (`LifecycleRuns.RunEndsPrimary`).
- Publishing does not empty the waiting list, so a second result for a goal would answer everybody again
  (`Actions.PublishAnswersOnce`, `Actions.SecondResultAnswersTwice`); expiring a goal without a result forgets those who wait
  for it (`Actions.ExpiryForgetsNobody`, `Actions.EarlyExpiryForgets`).
- Removing ROS arguments reports an invalid argument rather than an empty list exactly when nothing else is left
  (`Arguments.RemoveRosArguments`).

## Assumptions

- Allocation and publishing succeed. Texts are C strings without NUL.
- The node-name and namespace checks are flags of a node. A valid name or namespace has no braces, and a valid namespace
  starts with `/`.
- `rcutils_repl_str` replaces all occurrences from left to right, and `rcutils_string_map_getn` is an exact lookup.
- Number reading (`strtol`, `strtod`), severity names and the integer reader of the message parser are parameters.
- The ids of `lifecycle_msgs` are not part of the repository; the published values are used and only their being distinct
  matters. Start and goal of a transition are state ids where the original keeps pointers.
- The action library is the set of goals that exist; sequence numbers are fresh.

## Model

| member | source | states |
|---|---|---|
| YamlFlatten.FileRun | rcl/rcl_yaml_param_parser/src/parser.c:1185-1348 | for every well-formed document tree the event loop succeeds and stores exactly the recursive flattening: nodes and dotted parameters in document order, every array in element order |
| YamlFlatten.FileFold | rcl/rcl_yaml_param_parser/src/parser.c:1207-1346 | the same for the events before the end of the stream; depth is back to zero and both namespaces are empty |
| YamlFlatten.NodesRun | rcl/rcl_yaml_param_parser/src/parser.c:1065-1318 | below any namespace, the events of a namespace map append exactly its flattened nodes and restore the namespace |
| YamlFlatten.ParamsRun | rcl/rcl_yaml_param_parser/src/parser.c:1107-1318 | below any parameter namespace, the events of a parameter map append exactly its flattened parameters, whatever the nesting |
| YamlFlatten.EnterMap | rcl/rcl_yaml_param_parser/src/parser.c:1113-1172 | the first key inside a nested map finds the reader as if the map's own key had never taken a slot |
| YamlFlatten.LeaveMap | rcl/rcl_yaml_param_parser/src/parser.c:1288-1318 | the end of a nested map restores flags, depth and namespace and keeps the parameters |
| YamlFlatten.EnterNode | rcl/rcl_yaml_param_parser/src/parser.c:1065-1106 | key, map and `ros__parameters` open a new node named by the joined keys and drop the name from the namespace |
| YamlFlatten.LeaveNode | rcl/rcl_yaml_param_parser/src/parser.c:1288-1318 | the two map ends of a node lead back to the level of node names |
| YamlFlatten.ValueRun | rcl/rcl_yaml_param_parser/src/parser.c:819-1015 | a scalar or a whole same-type sequence fills the last slot with exactly its typed values |
| YamlFlatten.ItemsRun | rcl/rcl_yaml_param_parser/src/parser.c:569-697 | array elements are appended one by one without loss or reordering |
| YamlInvariant.LinkedAtEveryEvent | rcl/rcl_yaml_param_parser/src/parser.c:1185-1348 | after every prefix of the events of a well-formed file both namespace strings are the joins of the open keys, the counters their lengths, the depth the number of open maps, and the last slot bears the name whose value comes next |
| YamlInvariant.EventKeepsLink | rcl/rcl_yaml_param_parser/src/parser.c:1219-1345 | any accepted event a well-formed file may send keeps that link |
| YamlInvariant.RemNameOfPath | rcl/rcl_yaml_param_parser/src/parser.c:222-286 | taking a name off the join of separator-free keys gives the join of all but the last |
| YamlInvariant.AddNameToPath | rcl/rcl_yaml_param_parser/src/parser.c:146-217 | adding a name to the join of the open keys gives the join with that key |
| YamlMachine.PopUndoesPush | rcl/rcl_yaml_param_parser/src/parser.c:146-286 | removing a name restores the namespace if and only if the name holds no separator and the namespace does not end in one, or the namespace does and the only separator of the name is its first character |
| YamlMachine.FoldConcat | rcl/rcl_yaml_param_parser/src/parser.c:1207-1346 | handling a stream in two parts is handling it whole |
| YamlMachine.RunOfFold | rcl/rcl_yaml_param_parser/src/parser.c:1207-1223 | the loop stops at the end of the stream with what the events before it left |
| YamlLimits.RunKeepsLimits | rcl/rcl_yaml_param_parser/src/parser.c:1185-1348 | for event streams of every kind, a successful run has no more nodes and parameters than there is room for and no over-long name |
| YamlNames.OverlongNameHitsPrevious | rcl/rcl_yaml_param_parser/src/parser.c:1141-1172 | a scalar parameter between two entries is stored under its full name if and only if that name fits; otherwise the scalar silently goes to the previous parameter of the node, or is an error when there is none |
| YamlNames.OverlongFirstNameHitsPrevious | rcl/rcl_yaml_param_parser/src/parser.c:1113-1172 | the same for the first entry of a nested map, whose own key has given its slot back by then |
| YamlNames.OverlongMapTakesPrevious | rcl/rcl_yaml_param_parser/src/parser.c:1113-1172 | a map below an over-long key turns the previous parameter into the name of the first inner key, value and all; without one the parameter count falls below zero |
| YamlNames.OverlongFirstMapTakesPrevious | rcl/rcl_yaml_param_parser/src/parser.c:1113-1172 | the same when that key comes first in a nested map |
| YamlNames.SecondNodeBelowRoot | rcl/rcl_yaml_param_parser/src/parser.c:146-286 | below the root key `/` the first node is read and the next key reads outside the string |
| YamlNames.SlashedKeyIsBareKey | rcl/rcl_yaml_param_parser/src/parser.c:146-286 | a key with one separator at its end is read, from the first key below it on, like the key without if and only if that first key is not `ros__parameters`; else the node is named with the separator, and below another namespace its name stays in the namespace |
| YamlLimits.FileIsReadIffItFits | rcl/rcl_yaml_param_parser/src/parser.c:1065-1106 | a file of well-formed nodes is read as its flattening if and only if it has at most 256 nodes; else the reader writes behind its table |
| YamlLimits.NodesOverflow | rcl/rcl_yaml_param_parser/src/parser.c:1065-1106 | however the nodes are nested, the events of more nodes than are left in the table overrun it |
| YamlLimits.OneNodeTooMany | rcl/rcl_yaml_param_parser/src/parser.c:1065-1106 | a file of 257 nodes without parameters overruns the table |
| YamlReader.ReadFile | rcl/rcl_yaml_param_parser/src/parser.c:1357-1412 | reading a well-formed file with the object yields the flattening |
| YamlValues.ReadScalar | rcl/rcl_yaml_param_parser/src/parser.c:703-887 | from the text of a scalar to the members of the stored value: quoted is a string, then truth words, integers, real numbers and strings in this order; exactly that member is set |
| YamlValues.ReadSequence | rcl/rcl_yaml_param_parser/src/parser.c:819-1015 | a sequence is stored in the one array member of its type, element by element in order, and no other member is set |
| YamlValues.ReadNested | rcl/rcl_yaml_param_parser/src/parser.c:1185-1348 | twenty events, written out, of a node in a namespace with a nested parameter: the node is named with a slash, the parameter with a dot, and holds the scalar |
| YamlReader.Reader.ParseEvents | rcl/rcl_yaml_param_parser/src/parser.c:1185-1348 | the event loop over the mutable reader refines the run of the machine, error and undefined outcomes included |
| YamlReader.Reader.HandleEvent | rcl/rcl_yaml_param_parser/src/parser.c:1219-1345 | one event updates all fields as the machine's step |
| YamlReader.Reader.ParseKey | rcl/rcl_yaml_param_parser/src/parser.c:1020-1180 | a key updates all fields as the machine says |
| YamlReader.Reader.ParseParamKey | rcl/rcl_yaml_param_parser/src/parser.c:1107-1173 | a parameter key updates namespace and slots as the machine says |
| YamlReader.Reader.ParseValue | rcl/rcl_yaml_param_parser/src/parser.c:819-1015 | a value updates the last slot as the machine says |
| YamlReader.Reader.AddNodeName | rcl/rcl_yaml_param_parser/src/parser.c:146-217 | the namespace string and counter become those of the joined name |
| YamlReader.Reader.RemoveName | rcl/rcl_yaml_param_parser/src/parser.c:222-286 | the backward scan cuts at the last separator, or frees the only name |
| Lexer.Analyze | rcl/rcl/src/rcl/lexer.c:578-653 | for every text the loop ends, reports no internal bug, reads nothing behind the terminator, and returns kind and length of the simple specification |
| Lexer.Go | rcl/rcl/src/rcl/lexer.c:224-529 | from every state of the table, one move keeps the specification's answer and lowers a position-and-state measure, although some moves go back |
| Lexer.TokenIsLongestMatch | rcl/rcl/include/rcl/lexer.h:69-70 | a token is a prefix matching the documented expression, and no longer prefix matches |
| Lexer.TokenExpression | rcl/rcl/include/rcl/lexer.h:69-70 | the documented expression describes words that start with a letter or an underscore and have no two underscores in a row |
| Lexer.LexLength | rcl/rcl/src/rcl/lexer.c:578-653 | end of text exactly for the empty text, length at least one otherwise, at most the text's except for a failed lexeme, which may be one longer |
| Lexer.PunctuationTexts | rcl/rcl/src/rcl/lexer.c:224-576 | each of `/`, `~/`, `:`, `:=`, `*`, `**` and the nine back references is lexed as its own kind if and only if the text begins with it and with no longer one, with its length |
| Lexer.WordTexts | rcl/rcl/src/rcl/lexer.c:224-576 | the two schemes, `__ns` and `__node` are lexed as their kinds if and only if the text begins with them, and a token if and only if it begins with a letter or an underscore and with none of these nor two underscores |
| Lexer.OverrunsExactly | rcl/rcl/src/rcl/lexer.c:578-653 | a lexeme includes the terminator if and only if the text is one of six beginnings of lexemes |
| Lookahead.Lookahead2.Peek | rcl/rcl/src/rcl/lexer_lookahead.c:91-121 | the answer is that of lexing anew at the current position, whatever the slots hold |
| Lookahead.Lookahead2.Peek2 | rcl/rcl/src/rcl/lexer_lookahead.c:123-156 | both answers are those of lexing anew unless a second lexeme is still buffered; then the first is repeated; it reads behind the text if and only if the rest is one of the six texts that fail on the terminator |
| Lookahead.Lookahead2.Accept | rcl/rcl/src/rcl/lexer_lookahead.c:158-203 | consumes exactly the current lexeme; the accepted texts concatenate to the text so far |
| Lookahead.Lookahead2.Expect | rcl/rcl/src/rcl/lexer_lookahead.c:205-232 | succeeds if and only if the next lexeme is the expected one, and then consumes it |
| Lookahead.PeekTwoAfterAccept | rcl/rcl/src/rcl/lexer_lookahead.c:123-203 | peeking twice, accepting and peeking twice again yields a colon where the text has a token |
| Lookahead.StreamHead | rcl/rcl/src/rcl/lexer_lookahead.c:91-203 | the lexeme stream of a text is the first lexeme followed by the stream behind it, and ends at the end of text or a failed lexeme |
| RemapGrammar.RuleAccepted | rcl/rcl/src/rcl/arguments.c:1032-1091 | the parser's decisions, as a recogniser of lexeme sequences, accept exactly the grammar of rules |
| RemapGrammar.BodyAccepted | rcl/rcl/src/rcl/arguments.c:1060-1090 | the same for what follows the node prefix |
| RemapGrammar.EatNameFinds | rcl/rcl/src/rcl/arguments.c:682-748 | every name followed by the stop lexeme is eaten up to the stop |
| RemapGrammar.EatNameSound | rcl/rcl/src/rcl/arguments.c:782-864 | whatever is eaten is a name followed by the stop lexeme |
| RemapGrammar.SegmentsFind | rcl/rcl/src/rcl/arguments.c:621-648 | the namespace loop reaches the end of text exactly when tokens and slashes alternate |
| RuleText.RuleIff | rcl/rcl/src/rcl/arguments.c:621-1091 | the grammar over characters: an argument lexes to a rule if and only if it is, possibly behind a token and a colon, `__node:=` and a token, `__ns:=` and a slash path, or an optional scheme and two names around the first `:=` |
| RuleText.NameIff | rcl/rcl/src/rcl/arguments.c:682-864 | a name is eaten up to the stop if and only if the characters up to there are tokens with single slashes between them, possibly behind `/` or `~/` |
| RuleText.SegmentsIff | rcl/rcl/src/rcl/arguments.c:621-648 | the namespace loop reaches the end if and only if the characters are tokens, each but the last followed by a slash |
| RuleText.TokenIsLexed | rcl/rcl/src/rcl/lexer.c:224-529 | a token followed by nothing that goes on with it or makes it a scheme is lexed whole |
| RemapParser.ParseRemapRule | rcl/rcl/src/rcl/arguments.c:1116-1158 | an argument is accepted if and only if its lexemes are in the grammar, and if and only if its characters are; reassembling the rule gives the argument back |
| RemapParser.ParseTwoRules | rcl/rcl/src/rcl/arguments.c:1116-1158 | distinct accepted arguments give distinct rules |
| RuleMeaning.RuleMeans | rcl/rcl/src/rcl/arguments.c:786-1091 | the type bits, node, match and replacement of every form of argument, from its written parts |
| RemapParser.BeginRemapRule | rcl/rcl/src/rcl/arguments.c:1040-1091 | on a fresh buffer, with the two-lexeme peek in front, accepts exactly the recogniser's texts; it reads behind the terminator for exactly six arguments and rejects them |
| RemapParser.ParseNodenamePrefix | rcl/rcl/src/rcl/arguments.c:1001-1029 | reads a token and a colon and returns the token |
| RemapParser.ParseNameRemap | rcl/rcl/src/rcl/arguments.c:870-894 | reads match, separator and replacement; their texts make up the text consumed |
| RemapParser.ParseNamespaceReplacement | rcl/rcl/src/rcl/arguments.c:900-952 | accepts exactly `__ns:=` and a slash path to the end, and keeps the path |
| RemapParser.ParseNodenameReplacement | rcl/rcl/src/rcl/arguments.c:958-995 | accepts exactly `__node:=` and a token, and keeps the token |
| RemapParser.ParseMatchName | rcl/rcl/src/rcl/arguments.c:786-864 | the type bits are those of the scheme, and scheme and match make up the text consumed |
| RemapParser.ParseReplacementName | rcl/rcl/src/rcl/arguments.c:686-748 | accepts exactly a name up to the end of text and returns its text |
| RemapParser.ParseFullyQualifiedNamespace | rcl/rcl/src/rcl/arguments.c:621-648 | reads a slash and then segments as long as they go |
| RemapParser.LexemeText | rcl/rcl/src/rcl/lexer.c:224-576 | fixed lexemes stand for their fixed texts and beat every other reading |
| Arguments.ClassesAreExclusive | rcl/rcl/src/rcl/arguments.c:249-339 | no argument parses as two classes, so the order of attempts does not matter |
| Arguments.ClassIsTheOneThatParses | rcl/rcl/src/rcl/arguments.c:249-339 | the class found by the attempts in order is the one whose parser accepts |
| Arguments.ReservedIsNoRule | rcl/rcl/src/rcl/lexer.c:279-287 | no `__params:=` or `__log_` argument is a remap rule |
| Arguments.ParseArguments | rcl/rcl/src/rcl/arguments.c:185-390 | rules and files are those of the order-preserving filters of the arguments, the unparsed indices those of the rest, and the settings come from the arguments in order |
| Arguments.ParseOne | rcl/rcl/src/rcl/arguments.c:252-338 | one argument lands in its class and changes only what that class sets |
| Arguments.IndicesFilter | rcl/rcl/src/rcl/arguments.c:402-425 | the indices of a class strictly increase and are exactly those of that class, so that every index is in one class |
| Arguments.IndicesPick | rcl/rcl/src/rcl/arguments.c:402-425 | picking the arguments at these indices is the order-preserving filter |
| Arguments.RemoveRosArguments | rcl/rcl/src/rcl/arguments.c:436-476 | what remains is the order-preserving filter of the unparsed arguments; an error when it is empty |
| Arguments.ReadBool | rcl/rcl/src/rcl/arguments.c:1207-1252 | reads exactly the texts that begin with the key followed by one of the accepted spellings |
| ArgumentMeaning.SettingsMean | rcl/rcl/src/rcl/arguments.c:283-339 | which setting each log argument changes and to what; the others stay |
| ArgumentMeaning.OtherArgumentsKeep | rcl/rcl/src/rcl/arguments.c:249-339 | arguments that do not begin with `__log_` change no setting |
| ArgumentMeaning.BoolIsFirstCharacter | rcl/rcl/src/rcl/arguments.c:1226-1252 | of the lists of spellings the first character alone decides |
| ArgumentMeaning.ParamFileMeans | rcl/rcl/src/rcl/arguments.c:1160-1181 | `__params:=` is always a parameter file, and its path is the text behind the key |
| ExpandName.ReplaceKeepsMeaning | rcl/rcl/src/rcl/expand_topic_name.c:142-202 | replacing one group everywhere by a text without braces keeps balance and one-pass meaning, and lowers the number of groups |
| ExpandName.SubstituteAll | rcl/rcl/src/rcl/expand_topic_name.c:142-202 | when the groups in use have values without braces or none, the loop ends and equals the simultaneous one-pass substitution, failing exactly when that meets an unknown group |
| ExpandName.ExpandTopicName | rcl/rcl/src/rcl/expand_topic_name.c:43-235 | the whole operation, each failure included, equals the specification built on the one-pass substitution |
| ExpandName.ExpandedIsFixed | rcl/rcl/src/rcl/expand_topic_name.c:104-235 | a result is absolute, free of braces, and left as it is by each stage of the expansion |
| ExpandMeaning.PlainNamesExpand | rcl/rcl/src/rcl/expand_topic_name.c:104-235 | without groups an absolute name stays, a private one goes below the node and any other below the namespace, the root namespace without a second slash |
| ExpandMeaning.GroupsMean | rcl/rcl/src/rcl/expand_topic_name.c:149-179 | anywhere in a name `{node}` is the name of the node, `{ns}` and `{namespace}` its namespace, and another group the substitution of that name or a failure |
| ExpandMeaning.GroupExpands | rcl/rcl/src/rcl/expand_topic_name.c:43-235 | the whole expansion of a single group below the root |
| ExpandMeaning.AbsoluteNamesExpand | rcl/rcl/src/rcl/expand_topic_name.c:43-235 | an absolute name expands to what its groups come to, or fails on an unknown one |
| ExpandName.FirstGroupDecides | rcl/rcl/src/rcl/expand_topic_name.c:158-179 | the first group is one of the groups of the text, and unknown it makes the one-pass substitution fail as a whole |
| ExpandName.ValidIsBalanced | rcl/rcl/src/rcl/validate_topic_name.c:40-200 | a name that passes validation has balanced braces without nesting |
| ExpandName.CheckLetsPass | rcl/rcl/src/rcl/validate_topic_name.c:40-200 | `~a` and `{}` are valid topic names |
| ExpandName.PassingNames | rcl/rcl/src/rcl/expand_topic_name.c:135-147 | the groups of a valid name are all non-empty, as the expansion takes for granted, if and only if `{}` does not occur in it, and a leading tilde ends it or goes on with a slash if and only if it has not two characters |
| ExpandName.FindReplacement | rcl/rcl/src/rcl/expand_topic_name.c:149-179 | the chain of bounded comparisons finds exactly what the group stands for |
| ExpandLoop.LoopIsOnePassIff | rcl/rcl/src/rcl/expand_topic_name.c:142-202 | when the groups of the text are known and stand for balanced texts, the loop ends in the one-pass result if and only if they all stand for texts without braces |
| ExpandLoop.PlainWhenUsedPlain | rcl/rcl/src/rcl/expand_topic_name.c:142-202 | the one-pass result has no brace if and only if no group of the text stands for a text with one |
| ExpandLoop.LoopEndsIff | rcl/rcl/src/rcl/expand_topic_name.c:142-202 | with balanced values in reach, the loop ends with a name if and only if every group in reach of the text is known and no chain of groups comes back to itself |
| ExpandLoop.LoopYieldsIff | rcl/rcl/src/rcl/expand_topic_name.c:142-202 | it ends with a given text if and only if that is the full expansion, groups in values replaced in turn |
| ExpandLoop.ReplaceReduces | rcl/rcl/src/rcl/expand_topic_name.c:142-202 | replacing a group everywhere by its balanced value keeps the full expansion and takes one step off it for each text that has the group |
| ExpandLoop.LoopNeverFails | rcl/rcl/src/rcl/expand_topic_name.c:142-202 | when every group in reach is known, no round fails, so that the loop ends or goes on for ever |
| ExpandLoop.SelfReferenceNeverEnds | rcl/rcl/src/rcl/expand_topic_name.c:142-202 | when the value of the first group mentions that group before any other, after any number of rounds there is a group left |
| Remap.RemapName | rcl/rcl/src/rcl/remap.c:155-221 | local then global rules behave as one search over the concatenated list, and the output is not looked up again |
| Remap.FirstMatch | rcl/rcl/src/rcl/remap.c:97-152 | the loop finds the earliest rule that applies, unless the node itself proves invalid before |
| Remap.ValidNodeNeverAborts | rcl/rcl/src/rcl/remap.c:97-221 | for a valid node the output is the expanded replacement of the earliest rule whose type, node and expanded match agree, and absent when there is none |
| Remap.FirstIndexOfConcat | rcl/rcl/src/rcl/remap.c:175-198 | searching two lists in turn is searching their concatenation |
| Remap.RemapFromCommandLine | rcl/rcl/src/rcl/remap.c:155-221 | raw arguments to remapped name, with any substitutions: the first matching rule among the arguments that are remap rules |
| RemapMeaning.RemapByOneArgument | rcl/rcl/src/rcl/remap.c:97-221 | from the characters of one name rule to the outcome: the name that its match stands for at this node, and only that, becomes what its replacement stands for, if and only if the prefix is absent or this node and the scheme absent or of the kind asked for |
| RemapMeaning.HeadArgumentActs | rcl/rcl/src/rcl/remap.c:97-221 | `__node:=` and `__ns:=` answer only for the name and the namespace of the node, with their text |
| RemapMeaning.OtherRulesAreSkipped | rcl/rcl/src/rcl/remap.c:97-152 | a rule for another node, or without a type bit in common, can be left out of the list |
| RemapMeaning.OwnPrefixIsNone | rcl/rcl/src/rcl/remap.c:97-152 | a rule prefixed with the name of this node acts like the rule without prefix |
| RemapMeaning.FirstRuleDecides | rcl/rcl/src/rcl/remap.c:97-221 | a rule for everyone that comes first and applies decides, by its expanded replacement or, for the name and namespace of the node, by its text |
| RemapMeaning.NameTextIsValid | rcl/rcl/src/rcl/validate_topic_name.c:40-200 | every name in a rule is a valid topic name without groups |
| Remap.RuleIsReadable | rcl/rcl/src/rcl/lexer.c:224-576 | an argument in the grammar of rules has no brace, so that expanding its two sides never meets a group |
| Lifecycle.RegistrationKeepsIndex | rcl/rcl_lifecycle/src/transition_map.c:68-144 | after any registrations of states without transitions and of transitions, in any order, ids are unique and each state's list is the order-preserving filter of the global one; over ids, so that a state registered late, where the original's pointers would dangle, is no exception |
| Lifecycle.StateKeepsIndex | rcl/rcl_lifecycle/src/transition_map.c:68-96 | registering a state keeps the index if and only if the state carries no transitions |
| Lifecycle.TransitionKeepsIndex | rcl/rcl_lifecycle/src/transition_map.c:98-144 | registering a transition keeps the index |
| Lifecycle.StateLookupAgrees | rcl/rcl_lifecycle/src/rcl_lifecycle.c:277-317 | lookup in a state's own list agrees with searching the global list from that start, by id and by label |
| Lifecycle.RegisteredLookupAgrees | rcl/rcl_lifecycle/src/transition_map.c:68-157 | the same after any such registrations from an empty map |
| Lifecycle.DefaultRequests | rcl/rcl_lifecycle/src/default_state_machine.c:217-504 | from a primary state the registered requests are exactly those of the managed-node design, with their goals |
| Lifecycle.DefaultOutcomes | rcl/rcl_lifecycle/src/default_state_machine.c:217-651 | in every transition state every callback outcome has a transition, with the design's goal |
| Lifecycle.DefaultRecovery | rcl/rcl_lifecycle/src/default_state_machine.c:602-651 | from error processing exactly the ids of its three outcomes can be requested, leading to unconfigured or finalized |
| Lifecycle.NoOutcomeFromPrimary | rcl/rcl_lifecycle/src/default_state_machine.c:217-651 | no outcome label leaves a primary state |
| Lifecycle.LabelThenId | rcl/rcl_lifecycle/src/rcl_lifecycle.c:277-317 | a transition found by label is found again by its id |
| LifecycleRuns.ChangeStateEffect | rclcpp/rclcpp_lifecycle/src/lifecycle_node_interface_impl.hpp:354-419 | the compound step through trigger, callback, outcome and error handling ends and logs as one case distinction over the design says |
| LifecycleDesign.CallFollowsDesign | rclcpp/rclcpp_lifecycle/src/lifecycle_node_interface_impl.hpp:354-439 | the seven requests of the design and nothing else are accepted; with what the callbacks do written out: success reaches the aim, failure returns to the start or, in a shutdown, finalizes, an exception or error calls back once more and ends in unconfigured or finalized, a missing callback counts as success; with the exact log |
| LifecycleDesign.RequestsByLabel | rclcpp/rclcpp_lifecycle/src/lifecycle_node_interface_impl.hpp:195-233 | without a label the id counts, the labels of the design name their requests in their states, and an unknown label changes nothing |
| LifecycleRuns.RecoveryEffect | rclcpp/rclcpp_lifecycle/src/lifecycle_node_interface_impl.hpp:354-419 | in error processing a request arrives in unconfigured or finalized, calls back there once and reports failure, or changes nothing |
| LifecycleRuns.EndsPrimary | rclcpp/rclcpp_lifecycle/src/lifecycle_node_interface_impl.hpp:354-439 | a call from a primary state ends in a primary state if and only if the request is refused or its first callback returns a declared code; after an error the second callback leads to unconfigured on success and to finalized on every other code |
| LifecycleRuns.CallbackCount | rclcpp/rclcpp_lifecycle/src/lifecycle_node_interface_impl.hpp:387-414 | no callback for a refused request, two after an error, one otherwise |
| LifecycleRuns.RunKeepsInvariant | rclcpp/rclcpp_lifecycle/src/lifecycle_node_interface_impl.hpp:354-439 | over runs of any length with arbitrary requests and callback results the node is in a primary state or in error processing, the notifications form a connected path of registered transitions to it, and since the last visit to unconfigured: inactive or active means one successful configure, successful activates less deactivates are one in active and none in inactive, and unconfigured means none of either |
| LifecycleRuns.RunEndsPrimary | rclcpp/rclcpp_lifecycle/src/lifecycle_node_interface_impl.hpp:354-439 | after any requests the node is in a primary state if and only if, whenever the first callback of a request accepted in a primary state returned an undeclared code, a later request asked for an outcome of error processing |
| LifecycleRuns.AlwaysPrimary | rclcpp/rclcpp_lifecycle/src/lifecycle_node_interface_impl.hpp:354-439 | every call of a run ends in a primary state if and only if the first callback of no request accepted in a primary state returns an undeclared code |
| LifecycleRuns.DeclaredRunsStayPrimary | rclcpp/rclcpp_lifecycle/src/lifecycle_node_interface_impl.hpp:354-439 | with first callbacks that return a declared code or throw, every call of every run ends in a primary state |
| LifecycleRuns.ChangeStateKeepsInvariant | rclcpp/rclcpp_lifecycle/src/lifecycle_node_interface_impl.hpp:354-419 | the same for one request |
| LifecycleRuns.FinalizedIsAbsorbing | rcl/rcl_lifecycle/src/default_state_machine.c:217-651 | from finalized no run changes or logs anything, whatever the requests and callbacks |
| LifecycleRuns.LabelIsTriggered | rclcpp/rclcpp_lifecycle/src/lifecycle_node_interface_impl.hpp:195-233 | a request by label triggers the very transition with that label |
| LifecycleNode.Serve | rclcpp/rclcpp_lifecycle/src/lifecycle_node_interface_impl.hpp:195-233 | the object, built by the default registrations and fed with any requests, is where the run is, the run has the invariant, and the state is primary under the condition of `RunEndsPrimary` |
| LifecycleNode.StateMachine.ChangeState | rclcpp/rclcpp_lifecycle/src/lifecycle_node_interface_impl.hpp:354-419 | state, log and result are those of the specification |
| LifecycleNode.StateMachine.OnChangeState | rclcpp/rclcpp_lifecycle/src/lifecycle_node_interface_impl.hpp:195-233 | resolves the label and changes the state as the run's step |
| LifecycleNode.StateMachine.ExecuteCallback | rclcpp/rclcpp_lifecycle/src/lifecycle_node_interface_impl.hpp:421-439 | a missing callback counts as success, an exception as an error |
| LifecycleNode.StateMachine.TriggerTransition | rcl/rcl_lifecycle/src/rcl_lifecycle.c:319-350 | moves to the goal and notifies, or changes nothing |
| LifecycleNode.StateMachine.FindById | rcl/rcl_lifecycle/src/rcl_lifecycle.c:277-296 | the scan of the current state's list finds the first global transition with this start and id |
| LifecycleNode.StateMachine.FindByLabel | rcl/rcl_lifecycle/src/rcl_lifecycle.c:298-317 | the same by label |
| LifecycleNode.StateMachine.RegisterState | rcl/rcl_lifecycle/src/transition_map.c:68-96 | appends the state unless its id is known, and keeps the index |
| LifecycleNode.StateMachine.RegisterTransition | rcl/rcl_lifecycle/src/transition_map.c:98-144 | appends to the global list and to the start state's list, unless the start is unknown, and keeps the index |
| LifecycleNode.StateMachine.GetState | rcl/rcl_lifecycle/src/transition_map.c:146-157 | the first state with that id, or none |
| LifecycleNode.StateMachine.RegisterTransitions | rcl/rcl_lifecycle/src/default_state_machine.c:217-651 | registers exactly the 25 default transitions in order, with a correct index |
| LifecycleNode.StateMachine.InitDefault | rcl/rcl_lifecycle/src/default_state_machine.c:653-698 | the default machine is indexed, complete and in unconfigured |
| Actions.EveryRun | rclcpp/rclcpp_action/src/server.cpp:205-536 | over every interleaving: handles are the existing goals, results and waiting requests belong to them, each request is answered at most once, with UNKNOWN if and only if its goal did not exist when it was taken and else with the one result of that acceptance of the goal, and none is left once the result is there |
| Actions.StepExtends | rclcpp/rclcpp_action/src/server.cpp:205-536 | no step changes the result of an acceptance once published, what a taken request asked for, or what was sent |
| Actions.EverySystemRun | rclcpp/rclcpp_action/src/client.cpp:282-367 | with clients and a reordering, duplicating network: every callback fires at most once, for its own request, with the one result of the acceptance of its goal that was alive when the server took the request, or UNKNOWN when none was |
| Actions.PublishAnswersOnce | rclcpp/rclcpp_action/src/server.cpp:509-536 | publishing answers nobody twice if and only if the goal had no result or nobody waits |
| Actions.SecondResultAnswersTwice | rclcpp/rclcpp_action/src/server.cpp:509-536 | a legal run after which a second result answers the same request again |
| Actions.ExpiryForgetsNobody | rclcpp/rclcpp_action/src/server.cpp:430-454 | expiry forgets no request if and only if the result was published or nobody waits |
| Actions.EarlyExpiryForgets | rclcpp/rclcpp_action/src/server.cpp:430-454 | a legal run after which expiry forgets a request |
| Actions.TakeKeeps | rclcpp/rclcpp_action/src/server.cpp:376-428 | a result request, answered or queued, keeps the whole invariant |
| Actions.PublishKeeps | rclcpp/rclcpp_action/src/server.cpp:509-536 | a first result keeps the whole invariant and answers everyone who waits |
| Actions.DeliverKeeps | rclcpp/rclcpp_action/src/client.cpp:311-338 | any response delivered again or out of order keeps the callbacks right |
| ActionServer.ServerBase.ExecuteGoalRequest | rclcpp/rclcpp_action/src/server.cpp:205-287 | an accepted goal is created with its handle, unless its id is in use |
| ActionServer.ServerBase.ExecuteResultRequest | rclcpp/rclcpp_action/src/server.cpp:376-428 | answers at once or queues, as the protocol's step |
| ActionServer.ServerBase.PublishResult | rclcpp/rclcpp_action/src/server.cpp:509-536 | the sending loop answers exactly the waiting list, in order |
| ActionServer.ServerBase.CheckExpiredGoals | rclcpp/rclcpp_action/src/server.cpp:430-454 | the loop erases each reported goal from all tables, and none of them is left in any |
| ActionServer.ExpireAllKeeps | rclcpp/rclcpp_action/src/server.cpp:430-454 | expiring any number of finished goals keeps the invariant; what it removes is in `ExpiredAreGone` |
| ActionServer.ExpiredAreGone | rclcpp/rclcpp_action/src/server.cpp:430-454 | expired goals are gone from all four tables; every other goal and all that was sent stay |
| ActionServer.ExpiredIsUnknown | rclcpp/rclcpp_action/src/server.cpp:376-454 | a request taken after expiry is answered UNKNOWN |
| ActionServer.PendingResponses.SendRequest | rclcpp/rclcpp_action/src/client.cpp:326-338 | the table becomes that of the protocol after its sending move |
| ActionServer.PendingResponses.HandleResponse | rclcpp/rclcpp_action/src/client.cpp:311-324 | fires and forgets the callback, or ignores an unknown number |
| ActionServer.AskOnce | rclcpp/rclcpp_action/src/client.cpp:311-338 | a request answered twice fires its callback for the first answer only and leaves the table as before |
| TypeStrings.ConstructedRoundTrip | rosidl/rosidl_adapter/rosidl_adapter/parser.py:155-301 | whatever string a type was read from, printing it and reading it in any context gives the same type |
| TypeStrings.RoundTrip | rosidl/rosidl_adapter/rosidl_adapter/parser.py:229-301 | printing and reading any well-formed type is the identity |
| TypeStrings.BaseRoundTrip | rosidl/rosidl_adapter/rosidl_adapter/parser.py:155-226 | the same for base types, and the text has no brackets |
| TypeStrings.SizeRoundTrip | rosidl/rosidl_adapter/rosidl_adapter/parser.py:243-291 | the same for array sizes: dynamic, fixed and bounded |
| TypeStrings.ParsedIsWellFormed | rosidl/rosidl_adapter/rosidl_adapter/parser.py:155-266 | every type that is read is well-formed |
| TypeStrings.BareNameConstructs | rosidl/rosidl_adapter/rosidl_adapter/parser.py:185-207 | a bare name is a type if and only if it is a message name and the context a package name, which becomes its package |
| TypeStrings.QualifiedNameConstructs | rosidl/rosidl_adapter/rosidl_adapter/parser.py:185-207 | two parts around a slash are a type if and only if they are a package and a message name, whatever the context |
| TypeStrings.BoundedStringConstructs | rosidl/rosidl_adapter/rosidl_adapter/parser.py:166-183 | a bounded string is a type if and only if the bound is read as a number above zero |
| TypeStrings.ArrayConstructs | rosidl/rosidl_adapter/rosidl_adapter/parser.py:233-268 | empty brackets make an array without size, a number above zero a fixed one, and `<=` with such a number a bounded one; nothing else does |

## Left out

- YamlFlatten.FileRun: speaks of documents whose nodes hold only `ros__parameters`; empty nested parameter maps, keys that
  are not scalars and further keys beside `ros__parameters` are outside, because the flattening is not promised for them.
- ExpandName.ExpandTopicName: names that use a value with braces are outside its precondition; `ExpandLoop.LoopIsOnePassIff`
  says that, with known groups and balanced values, exactly for these the loop does not end in the one-pass result, and
  `ExpandLoop.LoopYieldsIff` what it computes for them.
- Remap.RemapName: for the same reason outside its precondition are rules with such a side that would be looked at; rules from
  the command line never have one.
- Lookahead.Lookahead2.Accept: accepting a failed lexeme that reaches over the terminator is outside its precondition,
  because the original would then read behind the text; the rule parser never does it.
- Lookahead.Lookahead2.Expect: is not stated for the failed lexeme, which no caller expects.
- Actions.EveryRun: a goal's result is published once and only finished goals expire, as the library above guarantees;
  `Actions.PublishAnswersOnce` and `Actions.ExpiryForgetsNobody` say exactly what happens otherwise.
- ActionServer.PendingResponses.SendRequest: one table stands for the goal, result and cancel tables, which work alike.
- libyaml, reading, printing and freeing parameter structures.
- The error codes and error index of the topic-name validation; the model keeps its verdict.
- The path of the external log configuration file, copying of arguments and the list of parameter files handed out.
- `rcl_lifecycle_get_transitions`, which looks up a transition by id alone, and pointers that dangle after reallocation.
- The `success` field of a lifecycle response, lifecycle services and publishers.
- Goal state events, cancel requests, feedback and status of actions.
- Middleware calls, graph queries, wait sets and timers, which are thin wrappers over other libraries.
- The IDL parser and the generators, which rest on grammars and templates.
- Fields, constants and whole files of the message parser.
- Command-line tools, component containers and package set-up, which are glue.
- Allocation failures, logging and error strings.
