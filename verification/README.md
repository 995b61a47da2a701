# Verified models of the analysis tools and their sample programs

This project models, in Dafny 4.11, the parts of the repository that compute something intricate, and proves what they
promise. `dafny verify dfyconfig.toml` checks all of it.

## What is modelled

**Use-after-free flow** (`Reachability`, `FlowGraph`, `UafFlow`, `Eviction`, `Visits`). A directed graph is an adjacency
map that its methods change in place. The control-flow graph and the pointer-assignment graph are arbitrary finite
graphs; nodes and node numbers correspond one to one. The graph carved out of the control flow by searches that avoid
the other selected nodes answers every reachability question between selected nodes as the control flow does. One record
is made for each pair of equal definitions, and it holds exactly the allocations that the control flow reaches from the
operation in the free's place. The program passes the two lists of operations to the matching in each other's place, so
that operation is an allocation; it is proved exactly when the record is still the one the free would get. Evicting
nodes while the graph is being traversed changes no answer between the nodes that stay. The searches terminate on every
finite graph, cycles included, although nodes can be on a stack or in a queue several times.

**SXML parser** (`SxmlText`, `SxmlGrammar`, `SxmlWindow`, `SxmlRuns`, `SxmlRefill`, `SxmlTable`, `SxmlTags`,
`SxmlMarks`, `SxmlContent`, `SxmlRender`, `SxmlSession`, `SxmlRoot`, `SxmlParser`, `SxmlDriver`, `SxmlStream`).
`SxmlGrammar.Step` says what one construct at a position of a document yields, `SxmlRuns.Parse` what one call of the
parser yields for a prefix of the document and a table of some size, and `SxmlRuns.Reference` what the whole document
yields with an unlimited table. The tokens of a run cover the document without a gap: construct by construct they say
where names, attributes, values, text and insides begin and end (`SxmlMarks.Covered`), and the text they carry is the
text between the markup (`SxmlContent.CharacterData`). Every document that is written in the form of `SxmlRender` is
accepted. The class `SxmlParser.State` has the fields of the C structure; its methods write the token array, which has one
slot more than the parser is told of, because `parse_attributes` writes the header's size even when there was no room for
it. `SxmlSession` is any sequence of calls with any growing buffers, table sizes and emptied tables in between; every state
that can be reached is consistent. `SxmlStream.ParseStream` is the loop of `main` over a buffer of fixed size (8128
characters in the program). As long as the table holds the largest construct, emptying it changes nothing at all: the
tokens, their order and the verdict are those of the same buffers with an unlimited table. How the input is cut into
pieces changes only where text is cut: the tags with their attributes, all other markup, the character data and the
verdict are those of one parse of the whole document. The program stops early exactly as its assertions do, when the
buffer is full of a single construct. Of a bad document it does not show what the last call had read, as the program
does not print it.

**JSON parser** (`JsonText`, `JsonTokens`, `JsonForms`, `JsonLinks`, `JsonMembers`, `JsonSpans`, `JsonRender`,
`JsonParser`, `JsonEscape`). `JsonTokens` describes the tokens of a document for a table that never overflows; the methods
of `JsonParser.Parser` write an array of any length and are proved to hold the beginning of that list and to return its
length. On the list it is proved that all links point forward, that an array's chain of items has the announced length,
that the chain of members of an object leads over values that carry their names and where it ends, and that every token
marks the text it claims to. Numbers and strings are accepted exactly if they have their form, and every value that is
written, with white space anywhere, is accepted and has exactly its own tokens. The same holds of simplified documents,
with unquoted strings and equals signs and without commas or braces. The forms are those of RFC 8259. Text is followed by
the NUL that the C code reads at its end.

**Modbus RTU** (`ModbusCrc`, `ModbusResidue`, `ModbusBits`, `Modbus`, `ModbusExchange`, `ModbusExamples`). A station has
its frame buffer of 64 bytes, its state and counters, a queue of received bytes and the frame it sent last. The clock
enters the master's `poll` as two answers: whether the query has timed out, and whether the line has been silent long
enough. The check sum is section 6.2.2 of "MODBUS over Serial Line V1.02"; the register and coil functions are sections
6.1 to 6.12 of the "MODBUS Application Protocol Specification V1.1b", and the examples of both are checked. Whole exchanges
of query, service and answer are methods over two stations. A frame carries its own check exactly if it leaves the check
register at zero, so damage is detected in the check bytes as well, and a damaged answer never reaches the master's image.

**SHA-1** (`Sha1`, `Sha1Example`). The digest is defined after FIPS 180-2, sections 4.1.1, 5.1.1 and 6.1.2, over words of
32 bits, with a message length taken modulo 2^64 as the code takes it; the streaming context computes it for every way of
cutting the message. The example of appendix A.1 is worked through word by word and round by round.

**Program transformations** (`Ir`, `Extension`, `ExtensionRuns`, `FunctionInstrumentor`, `Tracking`, `TrackingRuns`,
`RecursionTracker`). A small representation of programs with blocks, registers, memory and direct calls, and a machine
that runs it step by step. What a program does not define (other operations, declared functions) is a parameter of the
machine. The passes change a list of functions in loops and are proved to yield modules described by functions; for these
modules every run is compared with the run of the original, step by step.

## What the code does that one might not expect

- `hasPath` and the path searches treat a node as reachable from itself by the empty path.
- The use-after-free matching is called with its two lists exchanged (svf-uaf.cpp:1024): what a record calls its free is
  an allocation, and its last allocations are those that this allocation reaches, itself included
  (`UafFlow.AnalyseFlow`). An allocation followed by its free and nothing else is recorded with a last allocation
  (`UafFlow.SwapShows`); the record is the one the free would get if and only if the free reaches the allocation again
  and no allocation that the other one misses (`UafFlow.SwapHarmless`).
- SXML: a root element that closes itself (`<a/>`), behind any prolog, is never accepted, because the second loop starts
  only at a level above zero: a run succeeds only if some start tag leaves the root open (`SxmlRoot.RootMustOpen`,
  `SxmlRoot.BareRoot`, `SxmlRoot.DeclaredRoot`). In front of the root `<!` is accepted exactly if it starts a document
  type with an internal subset: comments, and document types without `]>`, ask for more text for ever
  (`SxmlRoot.DoctypeExact`, `SxmlRoot.NoSubset`, `SxmlRoot.CommentedRoot`, `SxmlRoot.PlainDoctype`). Text in front of an
  entity that turns out to be bad or incomplete has been read but not committed: `ParseStream` reports it as pending.
  For the same reason a buffer full of text that ends in an incomplete entity gets the program stuck, although its
  comment says that text never does (`SxmlStream.TextFillsBuffer`).
- JSON: objects accept a comma before the closing brace; the last member's sibling is 0 if and only if there is none
  (simplified documents aside), and otherwise the index of the first token behind the object
  (`JsonMembers.ObjectMembers`, `JsonLinks.TrailingComma`); `true`, `false` and `null` need a delimiter behind them, so
  they are refused at the very end of a text (`JsonLinks.LiteralExact`, `JsonLinks.LiteralDocument`); a simplified
  document that starts with a closing brace has a root whose child does not exist, and no other has a bad link
  (`JsonLinks.SimpleLinks`, `JsonLinks.LoneBrace`); the digits of `\u` are shifted by one bit each, so no escape ever
  yields more than seven bits (`JsonEscape.HexWordSmall`) and the bytes 0x10 to 0x1F do not survive escaping and
  unescaping (`JsonEscape.RoundTrip`).
- Modbus: the slave does not check the check sum. Its range check works on a byte that wraps, and the addresses it then
  serves are cut to a byte as well, so a request for register 256 reads and writes register 0
  (`ModbusExchange.RegisterRangeWraps`, `ModbusExchange.SameRegisters`). Which requests behind the table are accepted is
  stated exactly for every function, and so is which of them reach memory behind it
  (`ModbusExchange.RegisterRangeExact`, `ModbusExchange.RegisterRangeOutside`, `ModbusExchange.SingleRangeExact`,
  `ModbusExchange.SingleCoilRangeExact`, `ModbusExchange.CoilRangeExact`). The master drops answers to
  coil reads of eight coils or fewer, and all exception answers, as too short (`ModbusExchange.CoilAnswerTaken`,
  `ModbusExchange.ExceptionDropped`), and its own coil writes carry no coils: the slave stores the bits of the check sum
  (`ModbusExchange.QueryCarriesNoCoils`, `ModbusExchange.CheckTakenForCoils`). They announce one byte too few exactly if
  more than eight coils are left behind the last full register (`ModbusExamples.AnnouncedBytesExact`).
- The pass that extends signatures reports a change only when it replaced a call, although it may have replaced functions
  (`FunctionInstrumentor.UnreportedChange`): the variable of its loop hides the one that is returned.
- Characters are compared as unsigned numbers, as on the boards the programs are built for.

## Model

| member | source | states |
|---|---|---|
| `FlowGraph.Graph.AddNode` | SVF/tools/Uaf/svf-uaf.cpp:179-184 | a new node has no edges; a known one keeps its own |
| `FlowGraph.Graph.AddEdge` | SVF/tools/Uaf/svf-uaf.cpp:186-189 | exactly one edge is added; its source becomes a node |
| `FlowGraph.Graph.RemoveNode` | SVF/tools/Uaf/svf-uaf.cpp:191-200 | the node and all edges into and out of it are gone, nothing else |
| `FlowGraph.Graph.RemoveEdge` | SVF/tools/Uaf/svf-uaf.cpp:202-208 | exactly that edge is gone and no node |
| `FlowGraph.Graph.GetIncomingNodes` | SVF/tools/Uaf/svf-uaf.cpp:210-219 | exactly the nodes with an edge to the node |
| `FlowGraph.Graph.GetOutgoingNodes` | SVF/tools/Uaf/svf-uaf.cpp:221-227 | exactly the nodes the node has an edge to |
| `FlowGraph.Graph.HasPath` | SVF/tools/Uaf/svf-uaf.cpp:229-251 | true if and only if a path exists, on every finite graph; it terminates |
| `FlowGraph.Graph.PushKeepsOrder` | SVF/tools/Uaf/svf-uaf.cpp:240-247 | visiting a node and pushing its unvisited neighbours keeps: a visited node on the stack has every neighbour visited or above it |
| `UafFlow.ExistPathWithoutForbiddenNodes` | SVF/tools/Uaf/svf-uaf.cpp:537-569 | true if and only if the control flow has a path that enters no forbidden node |
| `UafFlow.SelectedNodes` | SVF/tools/Uaf/svf-uaf.cpp:571-612 | exactly the nodes of the operations and of their definitions that have one |
| `UafFlow.CreateAllocFreeFlowGraph` | SVF/tools/Uaf/svf-uaf.cpp:571-645 | exactly the edges between selected nodes joined by a path that avoids all other selected nodes are added |
| `UafFlow.CarvePath` | SVF/tools/Uaf/svf-uaf.cpp:614-645 | every control-flow path between selected nodes has a path in the carved graph |
| `UafFlow.CarvedReachability` | SVF/tools/Uaf/svf-uaf.cpp:571-645 | between selected nodes the carved graph answers reachability exactly as the control flow does |
| `UafFlow.MatchPair` | SVF/tools/Uaf/svf-uaf.cpp:647-679 | one record for each pair of equal definitions, as many as the two operations have definitions in common, with no last allocation yet |
| `UafFlow.InitMFFlow` | SVF/tools/Uaf/svf-uaf.cpp:647-679 | the records of all pairs in the order of the two loops, as often as each pair has common definitions |
| `UafFlow.RecordsKnown` | SVF/tools/Uaf/svf-uaf.cpp:647-679 | a pair has a record if and only if it shares a definition |
| `UafFlow.ResolveMFMFlow` | SVF/tools/Uaf/svf-uaf.cpp:681-704 | every record gains exactly the allocations that its free reaches |
| `UafFlow.AnalyseFlow` | SVF/tools/Uaf/svf-uaf.cpp:1016-1036 | the whole analysis as the program calls it: the operation in the free's place is an allocation, and the record holds exactly the allocations that the control flow reaches from it |
| `UafFlow.SwapHarmless` | SVF/tools/Uaf/svf-uaf.cpp:1016-1036 | the exchanged lists make no difference to a record if and only if the free reaches the allocation again and nothing the allocation does not |
| `UafFlow.SwapHarmlessBehind` | SVF/tools/Uaf/svf-uaf.cpp:1016-1036 | for a free behind its allocation: if and only if it reaches the allocation again |
| `UafFlow.SwapShows` | SVF/tools/Uaf/svf-uaf.cpp:1016-1036 | an allocation and its free in a line: an allocation is recorded although none follows the free |
| `Eviction.EvictNode` | SVF/tools/Uaf/svf-uaf.cpp:407-419 | the node is bypassed by edges from its predecessors to its successors; it stays exactly when it has an edge to itself |
| `Eviction.BridgePath` | SVF/tools/Uaf/svf-uaf.cpp:407-419 | a path through the evicted node has a path around it |
| `Eviction.EvictionKeepsReachability` | SVF/tools/Uaf/svf-uaf.cpp:407-419 | between other nodes one eviction changes no reachability |
| `Eviction.EvictionKeepsCover` | SVF/tools/Uaf/svf-uaf.cpp:384-421 | what the traversal knows of the original edges survives an eviction in the middle of it |
| `Eviction.TraverseAndRemoveNodes` | SVF/tools/Uaf/svf-uaf.cpp:384-421 | over the whole run: same answers between kept nodes; a reachable node to be evicted is left exactly if it has an edge to itself; it terminates |
| `Visits.SelectDefs` | SVF/tools/Uaf/visits.cpp:33-80 | one node: sources of address edges are results, unvisited other sources are queued |
| `Visits.GetDefNodes` | SVF/tools/Uaf/visits.cpp:129-146 | exactly the sources of address edges into nodes reachable backwards over other edges, dummies left out; it terminates |
| `Visits.PathSearch.ConcreteGetPathFromTo` | SVF/tools/Uaf/visits.cpp:95-117 | every recorded path is a chain of edges to the value, the path is restored, and every node seen in the meantime has all its edges followed |
| `Visits.GetPathFromTo` | SVF/tools/Uaf/visits.cpp:119-127 | every recorded path is a real chain to the value, and every edge into the value that can be reached ends a recorded path |
| `SxmlText.StrFindStr` | test/xml-parser/xml-parser.c:126-149 | the first place of the word, or the end |
| `SxmlText.StrRTrim` | test/xml-parser/xml-parser.c:218-231 | the text without white space at its end |
| `SxmlText.StrFindNotAlnum` | test/xml-parser/xml-parser.c:233-245 | the first character that no name has, or the end |
| `SxmlText.FindStrWindow` | test/xml-parser/xml-parser.c:126-149 | searching in a part of the document is searching in the document, shifted |
| `SxmlWindow.AttributesMore` | test/xml-parser/xml-parser.c:345-396 | attributes that do not run dry stay the same when the buffer is extended |
| `SxmlWindow.DelimitedMore` | test/xml-parser/xml-parser.c:402-421 | the same for comments, document types and character data sections |
| `SxmlWindow.InstructionMore` | test/xml-parser/xml-parser.c:425-457 | the same for instructions |
| `SxmlWindow.StartMore` | test/xml-parser/xml-parser.c:484-524 | the same for start tags |
| `SxmlWindow.EndMore` | test/xml-parser/xml-parser.c:528-548 | the same for end tags |
| `SxmlWindow.ConstructMore` | test/xml-parser/xml-parser.c:402-573 | every markup construct that does not run dry stays the same when the buffer is extended |
| `SxmlRuns.StepRoom` | test/xml-parser/xml-parser.c:259-292 | a limited table yields the same as an unlimited one, or reports that it is full, and then it was too small |
| `SxmlRefill.ReferenceStep` | test/xml-parser/xml-parser.c:590-668 | a run is its first construct followed by the run from behind it |
| `SxmlRefill.CommitKeepsStep` | test/xml-parser/xml-parser.c:590-668 | going on from the committed position does the same as going on from the one before |
| `SxmlRefill.CommitKeepsParse` | test/xml-parser/xml-parser.c:590-668 | the same for whole calls |
| `SxmlRefill.TableExact` | test/xml-parser/xml-parser.c:850-864 | a call with a limited table yields exactly what an unlimited one yields, or stops full exactly where a call on an emptied table goes on: the tokens of both, one after the other, are those of one call |
| `SxmlRefill.StepDecided` | test/xml-parser/xml-parser.c:590-668 | a step that neither runs dry nor cuts text is the step of the whole document |
| `SxmlRefill.CutTextGoesOn` | test/xml-parser/xml-parser.c:310-331 | text cut at the end of the buffer and continued is the text of the whole document |
| `SxmlRefill.RunInView` | test/xml-parser/xml-parser.c:590-668 | a call on a prefix of the document spells the beginning of the whole run, with the same verdict when it does not run dry in front of more text; on a full table it has advanced |
| `SxmlRefill.SpellKeeps` | test/xml-parser/xml-parser.c:884-893 | spelling text out character by character keeps the markup tokens and the concatenated character data |
| `SxmlRefill.SameSpelling` | test/xml-parser/xml-parser.c:884-893 | equal spellings have the same markup tokens and the same concatenated character data, however the text was divided |
| `SxmlTable.StartOpens` | test/xml-parser/xml-parser.c:484-524 | a start tag opens exactly one element, self-closing tags aside |
| `SxmlTable.StepSound` | test/xml-parser/xml-parser.c:259-292 | every construct's tokens are in order, inside the buffer, with as many attribute tokens behind a header as its size says, and close only what is open |
| `SxmlTable.TableInvariant` | test/xml-parser/xml-parser.c:590-668 | over one call: the level is the start tags minus the end tags and never negative, and the new tokens are well formed |
| `SxmlSession.NextKeeps` | test/xml-parser/xml-parser.c:590-668 | a call keeps this for everything committed since the start, and for a table that still holds tokens of earlier calls |
| `SxmlSession.ReachableConsistent` | test/xml-parser/xml-parser.c:580-668 | the same after any sequence of calls, growing buffers and emptied tables |
| `SxmlTags.TagsConcat` | test/xml-parser/xml-parser.c:716-762 | printing the table in parts visits the same headers with the same attributes as printing it at once |
| `SxmlTags.CutTags` | test/xml-parser/xml-parser.c:884-893 | cutting text changes no tag behind it |
| `SxmlTags.RunTags` | test/xml-parser/xml-parser.c:590-668 | a call on a prefix of the document yields the tags of the whole run up to where it stops |
| `SxmlText.ClassesByCode` | test/xml-parser/xml-parser.c:165-203 | white space and name characters by their codes, as XML 1.1 lists them for seven bits |
| `SxmlMarks.CharactersTile` | test/xml-parser/xml-parser.c:310-331 | the tokens of text lie one behind the other and cover what was read of it: text without an ampersand, and whole entity references of at most eight characters |
| `SxmlMarks.AttrValueTiles` | test/xml-parser/xml-parser.c:333-343 | the tokens of an attribute value cover the text between its quotes |
| `SxmlMarks.AttrLoopMarks` | test/xml-parser/xml-parser.c:345-396 | each attribute: the name up to the first equals sign without the white space around it, the first closing quote of the opening one's kind, and nothing but white space between attributes |
| `SxmlMarks.StartMarks` | test/xml-parser/xml-parser.c:484-524 | a start tag is `<`, the whole name, attributes and `>` or `/>`; only the latter has an end tag, which marks the same name |
| `SxmlMarks.InstructionMarks` | test/xml-parser/xml-parser.c:425-457 | an instruction is `<?`, the whole name, attributes and `?>` |
| `SxmlMarks.EndMarks` | test/xml-parser/xml-parser.c:528-548 | an end tag is `</`, the whole name, white space and `>` |
| `SxmlMarks.DelimitedMarks` | test/xml-parser/xml-parser.c:402-421 | the token marks the text between the opening string and the first closing string |
| `SxmlMarks.TilesData` | test/xml-parser/xml-parser.c:310-331 | the character data of tokens that cover a text is that text |
| `SxmlMarks.StepMarks` | test/xml-parser/xml-parser.c:590-668 | what a step commits marks all of the document from where the step started to where it ends; only before the root element white space is left out |
| `SxmlMarks.RunMarks` | test/xml-parser/xml-parser.c:590-668 | the same for a call: its tokens mark the document construct by construct up to the committed position |
| `SxmlContent.StepText` | test/xml-parser/xml-parser.c:590-668 | the text outside of headers that a step commits is what the document has there, and nothing for markup |
| `SxmlContent.RunText` | test/xml-parser/xml-parser.c:590-668 | the text a call commits and the character data behind it are the character data from where it started |
| `SxmlContent.AcceptedText` | test/xml-parser/xml-parser.c:590-668 | an accepted document is marked from its start to the end of its root, and its text is the text between the markup |
| `SxmlRender.AttrsAccepted` | test/xml-parser/xml-parser.c:345-396 | attributes with any white space, quotes and references are read to their end |
| `SxmlRender.ContentAccepted` | test/xml-parser/xml-parser.c:634-668 | text, references, instructions, comments, character data sections and elements nested to any depth are read to their end and leave the level as it was |
| `SxmlRender.DocumentAccepted` | test/xml-parser/xml-parser.c:590-668 | a prolog of instructions and document types with a subset and a root with content are accepted exactly up to the end of the root, whatever follows |
| `SxmlRoot.RootMustOpen` | test/xml-parser/xml-parser.c:601-634 | a run from the start succeeds if and only if some start tag leaves the root open and the content from there succeeds; otherwise it ends with the verdict of the first construct that fails |
| `SxmlRoot.StepOpens` | test/xml-parser/xml-parser.c:601-630 | before the content, exactly the start tags that do not close themselves open an element |
| `SxmlRoot.SelfClosedRoot` | test/xml-parser/xml-parser.c:590-630 | behind any prolog, a root that closes itself with only white space behind it asks for more |
| `SxmlRoot.BareRoot` | test/xml-parser/xml-parser.c:590-630 | so does the document `<a/>` |
| `SxmlRoot.DeclaredRoot` | test/xml-parser/xml-parser.c:590-630 | so does `<a/>` behind an XML declaration |
| `SxmlRoot.DoctypeExact` | test/xml-parser/xml-parser.c:460-482 | before the content, `<!` succeeds if and only if it starts `<!DOCTYPE` with `]>` behind it, and otherwise asks for more |
| `SxmlRoot.NoSubset` | test/xml-parser/xml-parser.c:601-630 | behind any prolog such a `<!` makes the whole document ask for more, whatever follows |
| `SxmlRoot.CommentedRoot` | test/xml-parser/xml-parser.c:619-624 | so does `<!--c--><a></a>` |
| `SxmlRoot.PlainDoctype` | test/xml-parser/xml-parser.c:460-482 | so does `<!DOCTYPE a><a></a>` |
| `SxmlParser.PushToken` | test/xml-parser/xml-parser.c:259-284 | the token is stored and counted, or the table is reported full and stays |
| `SxmlParser.ParseCharacters` | test/xml-parser/xml-parser.c:310-331 | text and the entity reference behind it as the grammar says, whose tokens `SxmlMarks.CharactersTile` shows to cover the text |
| `SxmlParser.ParseAttrValue` | test/xml-parser/xml-parser.c:333-343 | the pieces of an attribute value as the grammar says |
| `SxmlParser.ParseAttributes` | test/xml-parser/xml-parser.c:345-396 | attributes as the grammar says; the header gets its size |
| `SxmlParser.ParseDelimited` | test/xml-parser/xml-parser.c:402-421 | comments, document types and character data sections as the grammar says |
| `SxmlParser.ParseInstruction` | test/xml-parser/xml-parser.c:425-457 | instructions as the grammar says |
| `SxmlParser.ParseStart` | test/xml-parser/xml-parser.c:484-524 | start tags as the grammar says, with the closing of empty elements |
| `SxmlParser.ParseEnd` | test/xml-parser/xml-parser.c:528-548 | end tags as the grammar says |
| `SxmlDriver.SxmlParse` | test/xml-parser/xml-parser.c:590-668 | a call yields the run on its buffer and table: only whole constructs are committed, tokens from earlier calls stay, and it terminates |
| `SxmlDriver.Resume` | test/xml-parser/xml-parser.c:590-668 | a call in the middle of any sequence of calls makes the session's move on the fields and the table |
| `SxmlStream.Refilled` | test/xml-parser/xml-parser.c:866-903 | keeping the unread tail and appending what was read keeps the buffer a part of the document |
| `SxmlStream.PendingText` | test/xml-parser/xml-parser.c:310-331 | what is read but not committed is at most one piece of text |
| `SxmlStream.ArriveFull` | test/xml-parser/xml-parser.c:850-864 | for the whole loop: emptying a full table makes no difference to the run that follows |
| `SxmlStream.OnePiece` | test/xml-parser/xml-parser.c:819-928 | a document that arrives in one piece yields exactly the tokens of one call |
| `SxmlStream.NeverStuck` | test/xml-parser/xml-parser.c:888-896 | a document that fits the buffer never fills it with a single construct |
| `SxmlStream.StuckAt` | test/xml-parser/xml-parser.c:888-896 | the program gets stuck only where the construct at the committed position does not end within a full buffer |
| `SxmlStream.TextRunsDry` | test/xml-parser/xml-parser.c:310-331 | text runs dry if and only if it has an ampersand without a semicolon and no more than eight characters from there on |
| `SxmlStream.TextFillsBuffer` | test/xml-parser/xml-parser.c:884-893 | a buffer full of text that ends in an ampersand gets the program stuck |
| `SxmlStream.ArriveSound` | test/xml-parser/xml-parser.c:819-928 | over the whole loop: the level is the start tags minus the end tags, no prefix closes more than it opened, and the tokens are well formed |
| `SxmlStream.ArriveTags` | test/xml-parser/xml-parser.c:819-928 | however the document arrives, the tags and their attribute tokens are those of one parse of the whole document |
| `SxmlStream.ArriveMarks` | test/xml-parser/xml-parser.c:819-928 | however the document arrives, the tokens mark it construct by construct without a gap |
| `SxmlStream.ArriveText` | test/xml-parser/xml-parser.c:819-928 | however the document arrives, the text of the tokens is the text between the markup |
| `SxmlStream.Round` | test/xml-parser/xml-parser.c:850-864 | one call on an empty table and what is printed of it |
| `SxmlStream.LastRound` | test/xml-parser/xml-parser.c:850-918 | what was shown, dropped and left pending has the markup and the character data of the whole document |
| `SxmlStream.ParseStream` | test/xml-parser/xml-parser.c:819-928 | the tokens and the verdict are exactly those of the same pieces with an unlimited table, well formed and balanced; unless a construct fills the buffer, the verdict, the tags with their attributes, the other markup and the character data are those of one parse of the whole document, and the same tokens when it arrives in one piece; in any case they mark the document without a gap and carry the text between its markup; only a bad document leaves tokens unprinted |
| `JsonText.SkipWhitespace` | test/json-parser/json-parser.c:186-194 | the next character that is not white space, and only white space before it |
| `JsonText.ParseString` | test/json-parser/json-parser.c:205-239 | the length of the string, or an error |
| `JsonText.StringSpan` | test/json-parser/json-parser.c:205-239 | quoted strings end at a quote inside the text, bare ones at a delimiter, a quote or the end |
| `JsonText.ParseNumber` | test/json-parser/json-parser.c:241-276 | the length of the number, or an error |
| `JsonText.NumberSpan` | test/json-parser/json-parser.c:241-276 | a number has only characters of numbers and runs up to a delimiter or the end |
| `JsonText.ParseLiteral` | test/json-parser/json-parser.c:447-469 | the literals, with a delimiter behind them |
| `JsonText.ClassesByCode` | test/json-parser/json-parser.c:176-184 | white space, delimiters and hexadecimal digits by their codes |
| `JsonForms.NumberExact` | test/json-parser/json-parser.c:241-276 | a number is accepted if and only if the text up to the next delimiter is a sign, digits, a dot with digits and an exponent, with a digit in front of the exponent |
| `JsonForms.StringRead` | test/json-parser/json-parser.c:205-239 | a string whose backslashes all start escapes is read up to the quote behind it |
| `JsonForms.StringForm` | test/json-parser/json-parser.c:205-239 | a quoted string that is accepted ends at the first quote behind whole escapes |
| `JsonRender.ItemsRead` | test/json-parser/json-parser.c:363-403 | the items of an array, with or without commas where those may be left out, are read in order, counted and linked |
| `JsonRender.MembersRead` | test/json-parser/json-parser.c:291-361 | the members of an object are read in order, each with its own name and value, and linked |
| `JsonRender.ValueRead` | test/json-parser/json-parser.c:405-496 | every value that is written, with white space anywhere, is accepted and adds exactly its own tokens |
| `JsonRender.DocumentRead` | test/json-parser/json-parser.c:498-507 | the tokens of a document are those of the value written in it |
| `JsonRender.BracedRead` | test/json-parser/json-parser.c:509-526 | the same for simplified documents in braces |
| `JsonRender.OpenRead` | test/json-parser/json-parser.c:509-526 | a simplified document without braces has a root over all of it and the tokens of its members |
| `JsonLinks.ValueAdded` | test/json-parser/json-parser.c:405-496 | a value appends well-linked tokens and changes no other |
| `JsonLinks.ElementsAdded` | test/json-parser/json-parser.c:363-403 | reading items keeps: the chain from the child to the last item is as long as the count |
| `JsonLinks.MembersAdded` | test/json-parser/json-parser.c:291-361 | reading members keeps all links of finished members |
| `JsonLinks.DocumentLinks` | test/json-parser/json-parser.c:498-507 | a child is 0 or the next token, a sibling 0 or a later index no greater than the count, and an array's chain of items has the announced length |
| `JsonLinks.SimpleLinks` | test/json-parser/json-parser.c:509-526 | the same for simplified documents, except that the root's child does not exist if and only if the text starts with a closing brace |
| `JsonLinks.LoneBrace` | test/json-parser/json-parser.c:509-526 | the simplified document `}` is one token whose child is 1 |
| `JsonLinks.LiteralExact` | test/json-parser/json-parser.c:447-469 | a literal is accepted if and only if a delimiter stands behind it |
| `JsonLinks.LiteralDocument` | test/json-parser/json-parser.c:447-469 | a document that is just a literal is refused |
| `JsonMembers.KeyNamed` | test/json-parser/json-parser.c:319-348 | the name of a member is the whole string between its quotes, and the value is looked for behind the colon |
| `JsonMembers.MemberNamed` | test/json-parser/json-parser.c:319-349 | the token of a member marks its name; behind the name's quote come a colon and the text the token stands for, with only white space in between |
| `JsonMembers.ValueAlike` | test/json-parser/json-parser.c:405-496 | the verdict on a value, the position behind it and its number of tokens do not depend on what the table holds |
| `JsonMembers.ValueEnds` | test/json-parser/json-parser.c:405-496 | no value of a document that is not simplified ends in a comma |
| `JsonMembers.ObjectMembers` | test/json-parser/json-parser.c:291-361 | in the object at any position and in every object inside it: the members are the chain from the child on, each with its name in front of a colon and its value, and the last one's sibling is 0 if and only if no comma stands in front of the closing brace, and otherwise the index of the first token behind the object |
| `JsonMembers.DocumentMembers` | test/json-parser/json-parser.c:498-507 | the same for every object of every document |
| `JsonLinks.TrailingComma` | test/json-parser/json-parser.c:304-317 | the document `{"a":1,}` has a member whose sibling is the number of tokens |
| `JsonSpans.DocumentMarks` | test/json-parser/json-parser.c:291-507 | strings and names stand between quotes, objects between braces, numbers and literals end at delimiters |
| `JsonParser.Parser.ParseValue` | test/json-parser/json-parser.c:405-496 | the table holds the beginning of the tokens of the value; the count and the position do not depend on its size |
| `JsonParser.Parser.ParseObject` | test/json-parser/json-parser.c:291-361 | the same for objects, whose members `JsonMembers.MemberNamed` shows to carry their names; the validity test of the last token never fails |
| `JsonParser.Parser.ParseElements` | test/json-parser/json-parser.c:363-403 | the same for the items of arrays |
| `JsonParser.Parse` | test/json-parser/json-parser.c:498-507 | the count is that of the document, the table holds as many of its tokens as fit |
| `JsonParser.ParseSimple` | test/json-parser/json-parser.c:509-526 | the same for simplified documents |
| `JsonParser.ParseTwice` | test/json-parser/json-parser.c:128-174 | a table of the returned size holds every token, and a smaller one held their beginning |
| `JsonEscape.EscapeInto` | test/json-parser/json-parser.c:529-572 | for every capacity the output is the beginning of the escaped string |
| `JsonEscape.ScanEscaped` | test/json-parser/json-parser.c:205-239 | scanning an escaped string followed by a quote stops exactly at that quote |
| `JsonEscape.QuotedDocument` | test/json-parser/json-parser.c:498-572 | a quoted escaped string is a document of one token that marks it |
| `JsonEscape.HexWordSmall` | test/json-parser/json-parser.c:640-656 | no `\u` escape has a value above 127, so one byte is always written |
| `JsonEscape.UnescapeInto` | test/json-parser/json-parser.c:607-668 | the output is the unescaped input, also when both are the same array |
| `JsonEscape.LettersAgree` | test/json-parser/json-parser.c:529-668 | scanning, escaping and unescaping agree on the two-character escapes of RFC 8259, letter by letter and code by code |
| `JsonEscape.RoundTrip` | test/json-parser/json-parser.c:529-668 | unescaping an escaped string gives it back if and only if it has no byte from 0x10 to 0x1F and the capacity does not cut a numbered last character |
| `ModbusCrc.ShiftLinear` | test/plc/ModbusRtu.h:1069-1091 | one shift of the register is linear |
| `ModbusCrc.RegisterSerial` | test/plc/ModbusRtu.h:1069-1091 | the byte-wise computation is the bit-serial one, lowest bit first |
| `ModbusCrc.SerialLinear` | test/plc/ModbusRtu.h:1069-1091 | the check of a difference is the difference of the checks |
| `ModbusCrc.CrcDifference` | test/plc/ModbusRtu.h:1069-1091 | two bodies of equal length have the same check if and only if their difference has the check 0 from register 0 |
| `ModbusCrc.BurstDetected` | test/plc/ModbusRtu.h:1069-1091 | bodies that differ only within 16 bits in a row have different checks |
| `ModbusCrc.AdjacentBytesDetected` | test/plc/ModbusRtu.h:1069-1091 | bodies that differ only within two adjacent bytes have different checks |
| `ModbusCrc.OddErrorDetected` | test/plc/ModbusRtu.h:1069-1091 | bodies that differ in an odd number of bits have different checks |
| `ModbusExamples.CheckExample` | test/plc/ModbusRtu.h:1069-1091 | the check of 02 07 is 0x4112, and how it is sent |
| `ModbusExamples.PolynomialUndetected` | test/plc/ModbusRtu.h:1069-1091 | 16 bits are the limit: an error in the 17 bits of x^16+x^15+x^2+1 is never detected, wherever it is |
| `ModbusExamples.SeventeenBitsUndetected` | test/plc/ModbusRtu.h:1069-1091 | two bodies that differ within 17 bits and have the same check |
| `ModbusResidue.CheckedExactly` | test/plc/ModbusRtu.h:1069-1091 | a frame ends in the check of its other bytes if and only if the register is 0 behind all of it |
| `ModbusResidue.FrameBurstDetected` | test/plc/ModbusRtu.h:1173-1185 | whole frames: an error within 16 bits in a row, check bytes included, fails the receiver's check |
| `ModbusResidue.FrameOddErrorDetected` | test/plc/ModbusRtu.h:1173-1185 | so does an odd number of wrong bits anywhere in the frame |
| `ModbusBits.CoilSetCoil` | test/plc/ModbusRtu.h:1363-1385 | writing a coil changes that coil and no other |
| `ModbusBits.PackedSetPacked` | test/plc/ModbusRtu.h:1296-1312 | writing a bit of a packed frame changes that bit and no other |
| `Modbus.FrameChecks` | test/plc/ModbusRtu.h:958-1198 | every frame that is sent passes the check of the master |
| `Modbus.WordsRoundTrip` | test/plc/ModbusRtu.h:1253-1265 | registers sent high byte first are read back |
| `Modbus.Station.CalcCRC` | test/plc/ModbusRtu.h:1069-1091 | the two loops compute the check |
| `Modbus.Station.SendTxBuffer` | test/plc/ModbusRtu.h:958-1060 | the frame is the body and its check; the buffer is empty afterwards |
| `Modbus.Station.GetRxBuffer` | test/plc/ModbusRtu.h:911-940 | the received bytes are in front of the buffer, the rest is as before; a full buffer is an overflow |
| `Modbus.Station.ValidateAnswer` | test/plc/ModbusRtu.h:1173-1209 | the verdict on an answer, and the error counter |
| `Modbus.Station.ValidateRequest` | test/plc/ModbusRtu.h:1100-1165 | the verdict on a request, in arithmetic cut to a byte; an unsupported function counts as an error, nothing else does |
| `Modbus.Station.GetFC3` | test/plc/ModbusRtu.h:1253-1265 | the image starts with the words of the answer and goes on as before |
| `Modbus.CoilsReached` | test/plc/ModbusRtu.h:1294-1312 | coil by coil, the registers the slave computes lie inside the table if and only if the range from the cut address does |
| `Modbus.Station.ProcessFC1` | test/plc/ModbusRtu.h:1275-1321 | the reply carries the coils from the cut address on, in order, for every alignment |
| `Modbus.Station.ProcessFC3` | test/plc/ModbusRtu.h:1331-1353 | the reply carries the registers from the cut address on |
| `Modbus.Station.ProcessFC5` | test/plc/ModbusRtu.h:1363-1388 | the coil at the cut address is written and the header is echoed |
| `Modbus.Station.ProcessFC6` | test/plc/ModbusRtu.h:1396-1413 | the register at the cut address is written and the header is echoed |
| `Modbus.Station.ProcessFC15` | test/plc/ModbusRtu.h:1422-1469 | the coils from the cut address on are the bits of the frame, all others are as before |
| `Modbus.Station.ProcessFC16` | test/plc/ModbusRtu.h:1478-1506 | the registers from the cut address on are the words of the frame, all others are as before |
| `Modbus.Station.Query` | test/plc/ModbusRtu.h:601-678 | the three refusals change nothing; otherwise the frame is sent and the master waits |
| `Modbus.Station.PollMaster` | test/plc/ModbusRtu.h:694-766 | time-out, silence and complete frames: the new state, the result, the error count and the image |
| `Modbus.Station.PollSlave` | test/plc/ModbusRtu.h:781-884 | short bursts stay, requests for others are dropped, bad ones get an exception, the rest is served and answered |
| `ModbusExchange.ReadExchange` | test/plc/ModbusRtu.h:601-884 | reading n > 0 registers: the master is idle, its image is the addressed part of the table, the table is unchanged |
| `ModbusExchange.WriteExchange` | test/plc/ModbusRtu.h:601-884 | writing registers: the addressed ones are the master's image, all others and the image are unchanged |
| `ModbusExchange.RegisterExchange` | test/plc/ModbusRtu.h:601-884 | writing one register: the addressed one is the first of the master's image, no other and not the image has changed |
| `ModbusExchange.CoilExchange` | test/plc/ModbusRtu.h:601-884 | writing one coil: it is set exactly if the first register of the master's image is not 0, no other has changed |
| `ModbusExchange.CoilReadExchange` | test/plc/ModbusRtu.h:601-884 | reading coils: the slave sends the addressed ones, in order, for every alignment; the master's image stays |
| `ModbusExchange.CoilWriteThenRead` | test/plc/ModbusRtu.h:781-884 | coils written by one request are returned by a read of the same range, for every alignment; no other coil changes |
| `ModbusExchange.HeaderRead` | test/plc/ModbusRtu.h:608-625 | the slave reads the address and the count the master wrote |
| `ModbusExchange.RegisterRangeExact` | test/plc/ModbusRtu.h:1131-1165 | register requests inside the table are accepted; of the others exactly those whose sum wraps into it |
| `ModbusExchange.RegisterRangeOutside` | test/plc/ModbusRtu.h:1331-1353 | of the accepted register requests exactly those reach memory behind the table whose cut address and count wrap when added |
| `ModbusExchange.RegisterRangeWraps` | test/plc/ModbusRtu.h:1331-1353 | reading register 256 of a table of any size is accepted and yields register 0 |
| `ModbusExchange.SameRegisters` | test/plc/ModbusRtu.h:1396-1413 | register requests whose addresses differ by a multiple of 256 have the same effect |
| `ModbusExchange.SameCoils` | test/plc/ModbusRtu.h:1363-1469 | coil writes whose addresses differ by a multiple of 4096 have the same effect |
| `ModbusExchange.SingleRangeExact` | test/plc/ModbusRtu.h:1149-1153 | single registers outside the table are accepted if and only if the address is the one just behind it or wraps into it or just behind it; memory behind the table is reached exactly at the one just behind it |
| `ModbusExchange.SingleCoilRangeExact` | test/plc/ModbusRtu.h:1141-1148 | the same for single coils |
| `ModbusExchange.CoilRangeExact` | test/plc/ModbusRtu.h:1131-1140 | coil ranges inside the table are accepted; of the others exactly those whose odd coils slip behind the last register or whose registers wrap; the same of the cut range tells which reach memory behind it |
| `ModbusExchange.CoilRangeSlack` | test/plc/ModbusRtu.h:1131-1140 | below the wrap, accepted coil ranges exceed the table by at most 30 coils |
| `ModbusExchange.CoilRangeFails` | test/plc/ModbusRtu.h:1131-1140 | two coils from the last one of any table on are accepted |
| `ModbusExchange.DamagedAnswerDropped` | test/plc/ModbusRtu.h:722-740 | an answer damaged within 16 bits in a row or in an odd number of bits is dropped with an error and one more fault, whatever count it announces; the image stays |
| `ModbusExchange.CoilAnswerTaken` | test/plc/ModbusRtu.h:723-737 | the master accepts a coil answer if and only if it carries more than eight coils |
| `ModbusExchange.ExceptionDropped` | test/plc/ModbusRtu.h:723-737 | exception answers are dropped as too short |
| `ModbusExchange.QueryCarriesNoCoils` | test/plc/ModbusRtu.h:637-658 | behind the header of a coil write query stands its check |
| `ModbusExchange.CheckTakenForCoils` | test/plc/ModbusRtu.h:1422-1469 | serving it sets the first 16 addressed coils to the bits of the check |
| `ModbusExamples.QueryExamples` | test/plc/ModbusRtu.h:601-678 | the requests of sections 6.1, 6.3, 6.5, 6.6 and 6.12, byte by byte |
| `ModbusExamples.ReadAnswerExample` | test/plc/ModbusRtu.h:1331-1353 | the answer of section 6.3, byte by byte |
| `ModbusExamples.CoilsExample` | test/plc/ModbusRtu.h:1275-1321 | the coils of section 6.1 in the order they are sent in |
| `ModbusExamples.BitReadDigit` | test/plc/ModbusRtu.h:1294-1312 | bit k of a byte is digit k of its number |
| `ModbusExamples.ExceptionExample` | test/plc/ModbusRtu.h:1100-1165 | the function codes that are served, and the function and exception codes of an exception answer as in section 7 |
| `ModbusExamples.AnnouncedBytesExact` | test/plc/ModbusRtu.h:637-648 | a coil write announces one byte too few if and only if more than eight coils are left behind the last full register |
| `Sha1.Context.constructor` | test/rc/rc.c:530-543 | the context of the empty message |
| `Sha1.Context.Transform` | test/rc/rc.c:473-528 | the four round loops are the compression function of FIPS 180-2 |
| `Sha1.Context.AbsorbByte` | test/rc/rc.c:545-558 | one more byte of the message; full blocks are compressed |
| `Sha1.Context.Update` | test/rc/rc.c:545-558 | the context of the message with the piece appended |
| `Sha1.AbsorbBlock` | test/rc/rc.c:545-558 | the hash of one more block is its compression |
| `Sha1.PaddedBlocks` | test/rc/rc.c:560-590 | both padding branches write the padded message |
| `Sha1.Context.Finish` | test/rc/rc.c:560-590 | the hash of the padded message |
| `Sha1.Context.Final` | test/rc/rc.c:560-605 | the digest of everything absorbed |
| `Sha1.PadLength` | test/rc/rc.c:560-590 | the padded message consists of whole blocks |
| `Sha1.LengthReadBack` | test/rc/rc.c:560-590 | the eight length bytes of the padding, read high byte first, are the length |
| `Sha1.WordReadBack` | test/rc/rc.c:473-605 | a word of the digest, read as a word of the message is read, is that word |
| `Sha1Example.DigestOfAbc` | test/rc/rc.c:473-605 | the digest of `abc` is the one in appendix A.1 of FIPS 180-2 |
| `Sha1.HashPieces` | test/rc/rc.c:530-605 | for every way of cutting a message the result is the digest of the whole message |
| `Extension.PointersCounted` | FunctionInstrumentor/FunctionInstrumentor.cpp:107-130 | a clone gets as many integers as the function has pointer parameters |
| `Extension.ResultKnown` | FunctionInstrumentor/FunctionInstrumentor.cpp:107-188 | the module afterwards consists of one replacement for each function and nothing else; no clone is cloned |
| `Extension.FindReplacement` | FunctionInstrumentor/FunctionInstrumentor.cpp:107-188 | each replacement is found under its name |
| `Extension.ExtendedGone` | FunctionInstrumentor/FunctionInstrumentor.cpp:179-185 | the names of extended functions are gone |
| `ExtensionRuns.ResultResolved` | FunctionInstrumentor/FunctionInstrumentor.cpp:48-105 | no call names a deleted function, and every call has as many arguments as its callee takes |
| `ExtensionRuns.StepImage` | FunctionInstrumentor/FunctionInstrumentor.cpp:48-188 | one step of the new module from the image of a state is the image of one step of the old |
| `ExtensionRuns.SameRuns` | FunctionInstrumentor/FunctionInstrumentor.cpp:48-188 | after every number of steps, recursion included, both programs are at corresponding states; they end together with the same result and memory |
| `FunctionInstrumentor.Pass.InstrumentFunction` | FunctionInstrumentor/FunctionInstrumentor.cpp:107-157 | functions with pointers that are not on the black list get a clone with one integer more per pointer |
| `FunctionInstrumentor.Pass.InstrumentAll` | FunctionInstrumentor/FunctionInstrumentor.cpp:159-176 | the loop over the growing list ends; exactly the functions to be extended have been cloned, no clone has |
| `FunctionInstrumentor.Pass.InstrumentCalls` | FunctionInstrumentor/FunctionInstrumentor.cpp:48-105 | calls of extended functions are redirected everywhere but in the functions to be removed |
| `FunctionInstrumentor.Pass.RunOnModule` | FunctionInstrumentor/FunctionInstrumentor.cpp:159-188 | the pass yields the described module; it reports a change if and only if a call was replaced |
| `FunctionInstrumentor.UnreportedChange` | FunctionInstrumentor/FunctionInstrumentor.cpp:159-188 | a module that is changed without a report |
| `Tracking.CodeTracked` | RecursionTracker/RecursionTracker.cpp:33-80 | each instruction's code stands at its place, with the exit code before every return |
| `TrackingRuns.BumpSteps` | RecursionTracker/RecursionTracker.cpp:44-76 | the inserted instructions load, extend, add, cut and store a 16-bit sum |
| `TrackingRuns.Follow` | RecursionTracker/RecursionTracker.cpp:33-80 | one step of the program is a fixed number of steps of the tracked one, which end in the corresponding state with the counter right all the way |
| `TrackingRuns.CounterCounts` | RecursionTracker/RecursionTracker.cpp:33-103 | in every state of every run the counter is the number of activations past their increment and before their decrement, modulo 65536 |
| `TrackingRuns.SameRuns` | RecursionTracker/RecursionTracker.cpp:33-103 | all other state evolves as in the original program, which ends exactly when the tracked one does |
| `TrackingRuns.ReturnRestores` | RecursionTracker/RecursionTracker.cpp:33-80 | at the same depth the counter is the same, so a call that returns restores it |
| `RecursionTracker.Pass.TrackRecursion` | RecursionTracker/RecursionTracker.cpp:33-80 | the two loop nests yield the tracked function |
| `RecursionTracker.Pass.RunOnModule` | RecursionTracker/RecursionTracker.cpp:82-103 | every function is tracked; a change is reported if and only if one has a body |

## Left out

- LLVM and SVF internals, pointer analysis and the dumps of graphs: foreign code; graphs and programs are arbitrary
  finite ones.
- `traverseAndCopyGraph` and `traverseAndCreateAllocFreeFlowGraph`: copies of the traversals that are modelled.
- `selectFirstStore`, `selectFirstDominator`, `selectAllStore`: they keep no set of visited nodes and need not end on
  cyclic graphs.
- The first `scanf` of the SXML program, which reads the first word of the input into a buffer that is then filled from
  the start: nothing is lost in the model.
- The characters printed for a tag, with entities replaced; line numbers of errors.
- `json_encode_utf8` for values above 127: `JsonEscape.HexWordSmall` shows that it is never called with one.
- JsonEscape.UnescapeInto: input and output are the same array from its start or do not overlap; other overlaps are not
  modelled.
- Timers, pins and serial ports of the Modbus stations; `sendTxBuffer`'s loop that empties the queue empties it at once.
- Modbus.Station.PollMaster: answers with a correct check that announce more registers than the image or the buffer holds
  are excluded, because the C code then copies from or to memory that is not part of this model.
- Modbus.Station.PollSlave: accepted requests that reach, with addresses cut as the code cuts them, memory behind the table
  or behind the buffer are excluded, because that memory is not part of this model; `ModbusExchange` says exactly which.
- JsonMembers.DocumentMembers: simplified documents, where members need no comma, are not covered; for those in the form of
  `JsonRender` the tokens are known exactly.
- SxmlContent.AcceptedText: constructs of more than 65536 tokens are excluded, because the size in their header wraps; the
  second half, `SxmlMarks.Covered`, holds of them as well (`SxmlMarks.RunMarks`).
- test/plc/ZModbus.h: it writes whole registers for coils.
- Extension of signatures: indirect calls and calls with variable arguments; the order in which functions are erased.
- Recursion counter: signals and threads; programs that branch to their entry block, which LLVM does not allow.
- libzbouncer, the trusted application, the verifier scripts and the other sample firmware: sessions, sockets and files.
