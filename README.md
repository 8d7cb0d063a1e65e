# regex-gen in Dafny

A model of the core of `regex-gen`, a small regular-expression front end in
Rust, together with proofs about it. The model has four modules, one per
source file.

- `RegexGen` (`regex_gen.dfy`) is the pattern parser and its printer.
  - `RegexParser` keeps the unread input in a `seq<char>` field, which its
    methods advance in place.
  - Each method is proved equal to a pure step function of the unread input.
    That function returns the parsed result and the input left over.
  - `to_string` is a pair of methods with `for` loops. They are proved to
    produce the text given by recursive printing functions.
  - On top of these sit the parser's accept and reject rules and the
    round trip: parsing the printed text of a well-formed tree gives the
    tree back. The source's own parser test is proved as well.
- `Nfa` (`node.dfy`) holds edges, nodes and NFA graphs.
  - The global `ID_SEQ` counter is an explicit `IdSeq` object that is passed
    to `Node`'s constructor. Ids are unique only when the same `IdSeq` is
    passed to every node creation, as the source's single static counter
    guarantees; two separate `IdSeq` objects hand out the same ids.
  - `Node` is a class whose edge list only grows at the end.
  - `NFAGraph` is a value holding references to its start and end nodes and
    its nested sub-graphs.
- `TransTables` (`transtable.dfy`) flattens a graph into a transition
  table.
  - The table is a class with `start`, `end`, `states` and `trans` fields.
  - `from_nfa` is its constructor. It runs the recursive `append_states` and
    `append_trans` methods.
  - They are proved against the pre-order list of visited nodes.
  - Separate lemmas state what the table holds: its states, its per-state
    edge lists, its edge total and a bound on its number of states.
- `Engine` (`execute_engine.dfy`) runs a table over an input.
  - `exact_match` is a loop. It is proved equal to a recursive walk that
    follows the first matching edge on each byte.
  - Lemmas cover the empty input, early rejection, and the walk over
    concatenated inputs.
  - A lemma shows that a closed table never makes the lookup panic.
  - A hand-built table for `a\d+b` is proved to accept exactly `a`, one or
    more digits, `b`. This covers all six cases of the source's engine test.

The parser reads characters. The engine reads bytes: each character is
truncated to its low eight bits, as `c as u8` does. `Edge::match_character`
is not part of this model, so `ExactMatch` takes the matching predicate on
(edge, byte) as a parameter. The example table uses label equality, under
which an epsilon edge never matches.

## Model

| member | source | states |
|---|---|---|
| RegexGen.UnitToString | src/regex_gen.rs:37-66 | returns the unit's text: the character, `lo-hi` for a range, the member texts between `[` `]` for a bracket class or between `(` `)` for a group |
| RegexGen.ItemToString | src/regex_gen.rs:68-83 | returns the unit's text followed by `*`, `?` or `+` for the matching annotation, with nothing added for `StandAlone` |
| RegexGen.CharacterStep | src/regex_gen.rs:121-128 | reading a plain character always consumes input |
| RegexGen.ClassUnitStep | src/regex_gen.rs:142-197 | one bracket member consumes at least one character and yields a `Character` or a `CharacterRange` |
| RegexGen.ClassBody | src/regex_gen.rs:141-200 | the bracket loop never grows the input; on success it has consumed at least one character and built a `Characters` unit (that the character is a `]` is `ClassBodyReadsClose`) |
| RegexGen.ClassStep | src/regex_gen.rs:130-201 | a successful bracket group consumes input and yields a `Characters` unit |
| RegexGen.DispatchStep | src/regex_gen.rs:108-119 | a successful `dispatch` consumes at least one character; on empty input it fails |
| RegexGen.GroupStep | src/regex_gen.rs:203-221 | a successful `(` group consumes input and yields an `Items` unit |
| RegexGen.GroupBody | src/regex_gen.rs:207-220 | the group loop never grows the input; on success it has consumed at least one character and built an `Items` unit (that the character is a `)` is `GroupBodyReadsClose`) |
| RegexGen.TopItems | src/regex_gen.rs:96-98 | the item loop keeps every item collected before it and never grows the input |
| RegexGen.ParsePattern | src/regex_gen.rs:93-106 | `parse` always succeeds with an `Items` unit annotated `StandAlone` |
| RegexGen.RegexParser.constructor | src/regex_gen.rs:31-33 | the cursor starts at the first character of the pattern |
| RegexGen.RegexParser.Parse | src/regex_gen.rs:93-106 | the result is the pattern's parse, and the cursor ends where the item loop stopped |
| RegexGen.RegexParser.Dispatch | src/regex_gen.rs:108-119 | result and cursor move are those of the dispatch step on the unread input |
| RegexGen.RegexParser.ParseCharacter | src/regex_gen.rs:121-128 | result and cursor move are those of the character step |
| RegexGen.RegexParser.ParseCharacterGroup | src/regex_gen.rs:130-201 | result and cursor move are those of the bracket-group step |
| RegexGen.RegexParser.ParseItemGroup | src/regex_gen.rs:203-221 | result and cursor move are those of the group step |
| RegexGen.RegexParser.ParseAnnotation | src/regex_gen.rs:223-233 | returns the annotation at the head of the input and consumes exactly its character |
| RegexGen.FromStr | src/regex_gen.rs:29-35 | the `unwrap` never panics: the item returned is the pattern's successful parse |
| RegexGen.AnnotationConsumption | src/regex_gen.rs:223-233 | one character is consumed iff the next one is `?`, `+` or `*`; otherwise nothing is consumed and the result is `StandAlone` |
| RegexGen.AnnotationRoundTrip | src/regex_gen.rs:223-233 | reading the printed annotation gives it back and consumes exactly its text |
| RegexGen.DispatchPlainCharacter | src/regex_gen.rs:108-128 | outside brackets, any character but `[` and `(`, including `\` and `)`, becomes one `Character` followed by its annotation |
| RegexGen.DigitEscapeIsDigitRange | src/regex_gen.rs:145-148 | `\d` in brackets yields `CharacterRange('0','9')` and consumes the same as writing `0-9` |
| RegexGen.EscapedLiteral | src/regex_gen.rs:150-151 | `\\`, `\[` and `\]` in brackets yield the escaped character |
| RegexGen.UnknownEscapeIsError | src/regex_gen.rs:153 | any other escape, or `\` at the end of input, is an error |
| RegexGen.BadRangeIsError | src/regex_gen.rs:156-188 | `a-`, `A-` or `0-` not followed by `z`, `Z` or `9` respectively is an error |
| RegexGen.PlainClassUnit | src/regex_gen.rs:195-197 | any other bracket member that does not start a range is a literal `Character` |
| RegexGen.LeadingDashIsLiteral | src/regex_gen.rs:134-139 | a `-` right after `[` becomes a literal `Character('-')` |
| RegexGen.UnterminatedClassIsError | src/regex_gen.rs:198 | input without a `]` makes the bracket group fail |
| RegexGen.UnterminatedGroupIsError | src/regex_gen.rs:218 | input without a `)` makes the group fail |
| RegexGen.ClassBodyReadsClose | src/regex_gen.rs:189-198 | the bracket loop returns Ok only on reading a `]` of its input; what is left is the input after that `]` and its quantifier |
| RegexGen.GroupBodyReadsClose | src/regex_gen.rs:209-218 | the group loop returns Ok only on reading a `)` of its input; what is left is the input after that `)` and its quantifier |
| RegexGen.EscapedOrNestedCloseIsUnterminated | src/regex_gen.rs:189-198 | `[\]` fails, since the escaped `]` does not close the class; `(x[)]` fails, since a `)` inside brackets does not close the group |
| RegexGen.ClassBodyClose | src/regex_gen.rs:189-194 | helper: `]` ends the bracket group with the members collected, then reads an annotation |
| RegexGen.ClassBodyStep | src/regex_gen.rs:141-197 | helper: a successful member is appended and the loop goes on after it |
| RegexGen.GroupBodyClose | src/regex_gen.rs:209-215 | helper: `)` is consumed and ends the group with the items collected, then an annotation is read |
| RegexGen.GroupBodyStep | src/regex_gen.rs:217 | helper: a successfully dispatched item is appended and the loop goes on after it |
| RegexGen.TopItemsStep | src/regex_gen.rs:96-97 | helper: each successful `dispatch` adds its item to the pattern's list |
| RegexGen.TopItemsStopAtFailure | src/regex_gen.rs:96-98 | a failing `dispatch` ends the item list without an error, keeping the items so far |
| RegexGen.FailureEndsPatternSilently | src/regex_gen.rs:96-106 | well-formed items followed by input that fails to parse give a successful pattern of exactly those items |
| RegexGen.AfterAnnotationSuffix | src/regex_gen.rs:223-233 | helper: reading an annotation leaves a suffix of the input |
| RegexGen.ClassUnitSuffix | src/regex_gen.rs:142-188 | helper: reading a bracket member leaves a suffix of the input |
| RegexGen.ClassBodySuffix | src/regex_gen.rs:141-200 | helper: the bracket loop leaves a suffix of the input, whether or not it succeeds |
| RegexGen.DispatchSuffix | src/regex_gen.rs:108-119 | helper: `dispatch` leaves a suffix of the input, whether or not it succeeds |
| RegexGen.GroupBodySuffix | src/regex_gen.rs:207-220 | helper: the group loop leaves a suffix of the input, whether or not it succeeds |
| RegexGen.ClassUnitText | src/regex_gen.rs:142-197 | reading the printed text of a well-formed bracket member gives the member back |
| RegexGen.ClassBodyText | src/regex_gen.rs:141-200 | reading printed members, `]` and an annotation gives the collected members plus those printed |
| RegexGen.ClassStepText | src/regex_gen.rs:130-201 | reading a printed bracket class gives that class back |
| RegexGen.DispatchText | src/regex_gen.rs:108-119 | `dispatch` on the printed text of a well-formed item gives the item back and stops right after its text |
| RegexGen.GroupBodyText | src/regex_gen.rs:207-220 | reading printed items, `)` and an annotation gives the collected items plus those printed |
| RegexGen.TopItemsText | src/regex_gen.rs:96-98 | the item loop reads the well-formed items printed at the head of its input one by one |
| RegexGen.ParsePrintRoundTrip | src/regex_gen.rs:93-106 | parsing the printed text of well-formed items gives those items back as the pattern |
| RegexGen.ItemToStringParsesBack | src/regex_gen.rs:68-83 | the printed text of a well-formed item parses to a pattern holding just that item |
| RegexGen.SourceTestPattern | src/regex_gen.rs:244-245 | both test patterns parse to the same tree: `a`, then the bracket class `-`, `a`, `\`, `b`, `d`, `[`, `]`, `0-9` with `+` |
| RegexGen.SourceTestPatternsAgree | src/regex_gen.rs:244-247 | the two test patterns have equal parses |
| Nfa.NewEdge | src/node.rs:62-67 | the edge stores exactly the given target and label |
| Nfa.Epsilon | src/node.rs:55-60 | the edge has no label and the given target |
| Nfa.IdSeq.constructor | src/node.rs:4 | the id sequence starts at 0 |
| Nfa.IdSeq.FetchAdd | src/node.rs:78 | returns the current value and advances the sequence by one |
| Nfa.Node.constructor | src/node.rs:76-81 | a new node takes the current counter value as its id, the counter moves on by one, and the edge list is empty |
| Nfa.Node.AppendEdge | src/node.rs:91-93 | appends exactly the given edge at the end; earlier edges are unchanged (the id is a constant fixed when the node is made) |
| Nfa.Node.Connect | src/node.rs:87-89 | appends exactly one edge with the given target and label; earlier edges are unchanged |
| Nfa.NodesAllocated | src/node.rs:6-11 | every node a graph holds, nested ones included, is an existing object |
| Nfa.SubGraphNodes | src/node.rs:6-11 | a sub-graph's nodes are nodes of the graph holding it |
| Nfa.NFAGraph.StartId | src/node.rs:40-42 | `start_id` is the id of the graph's start node |
| Nfa.NFAGraph.EndId | src/node.rs:44-46 | `end_id` is the id of the graph's end node |
| Nfa.NewGraph | src/node.rs:14-21 | two new nodes with consecutive ids, so the start id differs from the end id; both edge lists are empty and there are no sub-graphs |
| Nfa.FromNode | src/node.rs:23-30 | the graph's start and end ids are those of the given nodes, and it has no sub-graphs |
| TransTables.Visits | src/transtable.rs:14-38 | the traversal meets two nodes per graph, starting with the root's start and end nodes |
| TransTables.TransTable.FromNfa | src/transtable.rs:41-54 | start is the graph's start id; the end set is exactly the end id; states and transitions are those of the traversal; the transition keys are the states |
| TransTables.TransTable.StateCount | src/transtable.rs:56-58 | on a table whose keys are its states, the count is also the number of edge lists |
| TransTables.TransTable.EdgeCount | src/transtable.rs:60-62 | the sum of the lengths of all edge lists |
| TransTables.AppendStates | src/transtable.rs:14-21 | adds the start and end ids of the graph and of every nested sub-graph, and changes nothing else |
| TransTables.AppendTrans | src/transtable.rs:23-38 | appends the edges of every visited node under its id, in pre-order, and changes nothing else |
| TransTables.AppendEntry | src/transtable.rs:28-33 | the node's edges go after those already listed under its id, starting from an empty list when there are none |
| TransTables.InsertedKeys | src/transtable.rs:23-38 | the keys after the traversal are the keys before plus the visited ids |
| TransTables.InsertedEdges | src/transtable.rs:28-33 | under each id, the list is the old list followed by the edges of every visit of that id, in order; nothing is replaced |
| TransTables.InsertedAppend | src/transtable.rs:35-37 | appending two runs of visits one after the other is appending them together |
| TransTables.VisitsIds | src/transtable.rs:14-21 | the states of a graph are its own start and end ids plus those of its sub-graphs |
| TransTables.StatesOfStructure | src/transtable.rs:14-21 | the states are the start and end ids of the graph and of each sub-graph, recursively |
| TransTables.StatesUpToIds | src/transtable.rs:18-20 | the ids visited in the first `k` sub-graphs are the states of those sub-graphs |
| TransTables.StateCountBound | src/transtable.rs:56-58 | a graph tree gives at most two states per graph |
| TransTables.TotalEdgesRemove | src/transtable.rs:60-62 | the edge total does not depend on the order the lists are summed in |
| TransTables.AppendTotal | src/transtable.rs:28-33 | one append adds exactly that node's edges to the total |
| TransTables.InsertedTotal | src/transtable.rs:23-38 | no edge is lost or duplicated: the total grows by the edges of the visits |
| TransTables.EdgeCountOfGraph | src/transtable.rs:60-62 | the edge count of a table built from a graph is the number of edges of all visited nodes |
| Engine.ToByte | src/execute_engine.rs:22 | `c as u8`: a character below 256 keeps its code; any other keeps its code modulo 256 |
| Engine.FirstMatch | src/execute_engine.rs:22 | finds the first edge that matches the byte; nothing is found iff no edge matches |
| Engine.ExecuteEngine.WithTranstable | src/execute_engine.rs:9-13 | the engine holds the given table |
| Engine.ExecuteEngine.ExactMatch | src/execute_engine.rs:15-30 | when every state reached has an entry, the result is the recursive first-match walk's verdict; the table is not modified |
| Engine.EmptyInput | src/execute_engine.rs:15-29 | the empty string is accepted iff the start state is an end state |
| Engine.RejectOnNoMatch | src/execute_engine.rs:22-26 | a byte no edge of the current state matches rejects, whatever follows |
| Engine.FollowsFirstMatch | src/execute_engine.rs:22-23 | when several edges match, the walk goes on from the first one only |
| Engine.WalkAppend | src/execute_engine.rs:19-27 | reading `a + b` is reading `a`, then reading `b` from the state reached |
| Engine.ClosedIsDefined | src/execute_engine.rs:20 | on a table whose edges all lead to listed states, the lookup never panics |
| Engine.ExampleClosed | src/execute_engine.rs:40-45 | the hand-built `a\d+b` table is closed |
| Engine.ExampleFromTwo | src/execute_engine.rs:40-52 | from the digit-loop state, the walk reaches the accepting state iff digits and then `b` remain |
| Engine.ExampleAccepts | src/execute_engine.rs:40-52 | the hand-built table accepts exactly `a`, one or more digits, `b` |
| Engine.ExampleRejects | src/execute_engine.rs:46-49 | `a`, `ab`, `aab` and `a0` are rejected |
| Engine.ExampleMatchesShort | src/execute_engine.rs:50 | `a0b` is accepted |
| Engine.ExampleMatchesLong | src/execute_engine.rs:51 | `a0123456789b` is accepted |

Rows marked "helper:" are one-step facts about a parsing loop. The
round-trip and source-example proofs are built from them.

## Left out

- `impl fmt::Display for TransTable` (src/transtable.rs:65-88) is left out. It is text output whose line order follows `HashSet` iteration order.
- src/dot_graph.rs, src/terminal.rs and src/lib.rs are not part of this model. They hold presentation, unused scaffolding and module declarations.
- `ID_SEQ` is atomic in the source. `IdSeq` is a plain sequential counter, so concurrent node creation is not modelled. Nothing stops a caller from making a second `IdSeq`; ids are unique only when one `IdSeq` is used for every node.
- `usize` has no bound in the model, so a wrap-around of the id counter at 2^64 is not modelled.
- `Node::id`, `Node::edges`, `NFAGraph::nodes` and `NFAGraph::start` are plain field reads: the `id`, `edges`, `start` and `end` fields.
- `sub_graphs`, `trans_map`, `end_set` and `TransTable::start_id` are called but not shown. They are read as the `subGraphs`, `trans`, `end` and `start` fields.
- `Edge::match_character` is not shown, so `ExactMatch` takes the matching predicate as a parameter. `Edge::next_node` is the `nextNode` field.
- `RegexItem::nfa_graph` and `TransTable::cut_epsilon` are not part of this model. The engine test is stated against a hand-built `a\d+b` table, not one built from the parsed pattern.
- TransTables.TransTable.FromNfa: the traversal reads a value copy of the graph (`ValueOf`). The source borrows the graph immutably, so aliasing between the graph and the table does not arise there.
- NFA graphs hold node references, whereas the source owns its nodes by value. Nodes shared between graphs are allowed in the model. They are then visited once per occurrence, as the source would visit copies.
- Engine.ExecuteEngine.ExactMatch: requires that every state the walk reaches has an entry in the transition map. The source panics otherwise, at the `unwrap` in src/execute_engine.rs:20.
- The engine truncates characters to bytes. Full Unicode matching is not modelled, and neither is any pattern syntax the parser does not handle.
- RegexGen.ParsePrintRoundTrip: holds only for well-formed trees. The printer escapes nothing, so these print text that parses differently: inside brackets, a member `]` or `\`, a range other than `a-z`, `A-Z` or `0-9`, a literal `a`, `A` or `0` followed by a literal `-` (read back as a range or an error), or a `Characters` or `Items` unit nested inside a bracket class; outside brackets, a `CharacterRange` item (it prints as three plain characters), or a literal `[`, `(`, `)` (which closes an enclosing group early), `?`, `+` or `*`.
- A parser that aborts with a typed syntax error (unbalanced parenthesis, unterminated bracket, bad range or escape) is not what the code does. `parse` never fails at top level and stops at the first failing item, and the model follows the code (`RegexGen.ParsePattern`, `RegexGen.FailureEndsPatternSilently`).
- The failed parse's cursor position is kept in the model, as the source's iterator keeps it, but no caller observes it.
