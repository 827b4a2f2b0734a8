# ngraph.serialization: Matrix Market loading and JSON storage, modelled in Dafny

This project models the two storage formats of `ngraph.serialization`.

**Matrix Market (`mtx`).** A line parser is a two-state machine. It starts
in `WAIT_ROW_COLUMNS_ENTRIES` and moves to `READ_DATA`. It takes one text
line per `parse` call:

- it skips empty lines;
- it keeps every `%` line, minus the `%`, as the description;
- it consumes the first other line as the dimensions header;
- it then turns each `row col [value]` line into node data (row `===`
  column) or a link.

`load(text)` splits the text at `\n` and feeds every piece, in order, to one
fresh parser. It returns that parser's graph.

**JSON.** `save` writes one record per node (`id`, plus `data` when it is
defined) and one per link (`fromId`, `toId`, plus `data` when it is
defined), in iteration order. `load` throws an `Error` when its argument
is not a string, and another when the parsed object has no `nodes` or no
`links` key. It then builds a fresh graph in two loops:

- the node loop adds the node records in stored order, throwing an `Error`
  at the first record without an `id`;
- the link loop then adds the link records in stored order, throwing a
  bare string at the first record without `fromId` or `toId`.

Records before a bad one are already added when the loop throws, but that
graph is never returned.

Modules:

- `Js` (`js.dfy`): the JavaScript built-ins the code relies on.
  - `undefined` as `Option`;
  - thrown values as `Result`;
  - `parseInt` yielding an integer or NaN, and `===` on numbers;
  - the `\s` class;
  - `slice`;
  - `split` and `join` with a one-character separator.
- `Graphs` (`graphs.dfy`): the graph the serializers read and build.
  - `GraphValue` lists node ids in creation order (the `forEachNode`
    order), a payload per node, and links in insertion order.
  - The class `Graph` is the same state changed in place by `addNode` and
    `addLink`.
- `MtxParser` (`mtx_parser.dfy`): the line parser.
  - `getLineData` is the one-match strip followed by a split on runs of
    white space.
  - `Step` gives the effect of one `parse` call on the whole parser state,
    and `Feed` folds `Step` over a sequence of lines.
  - The class `LineParser` is the parser object; its `Parse` is proved to
    follow `Step`.
- `Mtx` (`mtx.dfy`): `load`, `createLineParser`, and the sample document of
  the package's test.
- `Json` (`json.dfy`): the stored records, `Saved`/`Loaded` as functions,
  `Save`/`Load` as methods with loops, and the save/load round trip.

## Model

| member | source | states |
|---|---|---|
| Js.ParseIntRoundTrip | mtx/mtxParser.js:81-82 | `parseInt(s, 10)` of the decimal spelling of any integer is that integer |
| Js.ParseIntStopsAtNonDigit | mtx/mtxParser.js:81-82 | `parseInt` reads the longest digit run and ignores what follows it |
| Js.ParseIntWithoutDigits | mtx/mtxParser.js:81-82 | a token starting with no white space, sign or digit parses to NaN |
| Js.SliceFrom | mtx/mtxParser.js:75 | `s.slice(k)` holds exactly the characters of `s` from `k` on, and is empty past the end |
| Js.SplitOn | mtx/index.js:36 | `text.split('\n')` gives at least one piece; no piece holds `\n`; joining the pieces with `\n` gives the text back |
| Js.SplitJoin | mtx/index.js:36 | splitting the `\n`-join of newline-free lines gives those lines back |
| Graphs.Empty | mtx/mtxParser.js:54 | a new graph has no nodes, no payloads and no links, and is well formed |
| Graphs.WithNodeSpec | mtx/mtxParser.js:87 | `addNode` sets the payload (overwriting), creates the node only when missing, keeps other nodes, the node order and all links, and keeps the graph well formed |
| Graphs.TouchSpec | mtx/mtxParser.js:89 | making sure an endpoint exists creates it with no payload and never changes an existing payload |
| Graphs.WithLinkSpec | mtx/mtxParser.js:89 | `addLink` appends exactly one link (no merging), creates missing ends with no payload (the source end before the target end, once for a loop), and keeps every existing payload and the node order |
| Graphs.AppendLinkKeepsWellFormed | json/index.js:102 | appending a link between existing nodes keeps the graph well formed |
| Graphs.Graph.constructor | mtx/mtxParser.js:54 | a created graph object holds the empty graph |
| Graphs.Graph.AddNode | mtx/mtxParser.js:87 | the graph object's new state is `WithNode` of its old state |
| Graphs.Graph.AddLink | mtx/mtxParser.js:89 | the graph object's new state is `WithLink` of its old state |
| MtxParser.StripOnceRemovesOneRun | mtx/mtxParser.js:103-106 | the regex without `g` removes the whole leading white-space run when there is one, otherwise the whole trailing run, and nothing else |
| MtxParser.SplitOnRuns | mtx/mtxParser.js:48 | splitting on `/\s+/` always yields at least one piece |
| MtxParser.SplitOnRunsWords | mtx/mtxParser.js:48 | no piece of the split holds white space |
| MtxParser.SplitOnRunsFirst | mtx/mtxParser.js:48 | the first piece is empty exactly when the string is empty or starts with white space |
| MtxParser.SplitOnRunsSingle | mtx/mtxParser.js:48 | the string is one piece exactly when it holds no white space |
| MtxParser.SplitOnRunsInnerNonEmpty | mtx/mtxParser.js:48 | only the first and last pieces can be empty |
| MtxParser.SplitOnRunsLast | mtx/mtxParser.js:48 | the last piece is empty exactly when the string is empty or ends with white space |
| MtxParser.SplitOnRunsWord | mtx/mtxParser.js:48 | a word without white space splits into itself |
| MtxParser.SplitOnRunsGap | mtx/mtxParser.js:48 | a leading run of white space contributes one empty piece |
| MtxParser.SplitOnRunsAfterWord | mtx/mtxParser.js:48 | a word, a white-space run and a rest split as the word followed by the rest's pieces |
| MtxParser.SplitOnRunsJoin | mtx/mtxParser.js:48 | tokens joined by single spaces split back into the same tokens |
| MtxParser.JoinedTailStart | mtx/mtxParser.js:48 | proof step for `SplitOnRunsJoin`, not a property of the source: a space-join of tokens starts with its first token's first character |
| MtxParser.StrippedEnds | mtx/mtxParser.js:103-106 | after the strip, a line with content starts with a non-space; a line that starts with a non-space ends with one; a line padded at both ends keeps its trailing run |
| MtxParser.GetLineDataShape | mtx/mtxParser.js:105-107 | `getLineData` gives at least one token, none holding white space, only the first and last possibly empty; the last is empty for a line padded at both ends |
| MtxParser.FoldConcat | mtx/index.js:39-41 | proof step for `FeedConcat`: a fold over `a + b` is a fold over `b` started from the fold over `a` |
| MtxParser.FeedConcat | mtx/index.js:39-41 | parsing two batches of lines one after the other is parsing them all at once |
| MtxParser.FeedCons | mtx/index.js:39-41 | proof step (`FeedConcat` for a single first line): parsing a line and then the rest is parsing them all |
| MtxParser.FeedDescription | mtx/mtxParser.js:73-77 | the description grows by exactly the comment lines seen, each minus its `%`, in order and with repeats, in either state |
| MtxParser.FeedWithoutContent | mtx/mtxParser.js:70-77 | empty and `%` lines change neither the graph nor the state; they only extend the description |
| MtxParser.ReadDataIsFinal | mtx/mtxParser.js:91-99 | the parser is in `READ_DATA` exactly when it started there or has seen a content line; nothing returns it to waiting |
| MtxParser.FirstContentLineIsHeader | mtx/mtxParser.js:91-99 | from a new parser, the first content line adds nothing to the graph and moves the state to `READ_DATA`, whatever its tokens are |
| MtxParser.FeedIgnoresDescription | mtx/mtxParser.js:69-100 | the graph and state after any lines do not depend on the description collected before |
| MtxParser.CommentDoesNotChangeGraph | mtx/mtxParser.js:73-77 | inserting a `%` line anywhere leaves the resulting graph and state unchanged |
| MtxParser.EntryLineTokens | mtx/mtxParser.js:105-107 | a `row col [value]` line is content and tokenizes to exactly its row, column and value |
| MtxParser.ApplyEntriesPrefix | mtx/mtxParser.js:79-90 | proof step, `ApplyEntries` unfolded once: reading the first `k` entries is reading the first `k - 1` and then entry `k - 1` |
| MtxParser.DataLineStep | mtx/mtxParser.js:79-90 | in `READ_DATA`, a line spelling an entry applies that entry to the graph and changes nothing else |
| MtxParser.FeedDataLines | mtx/mtxParser.js:79-90 | in `READ_DATA`, lines spelling entries apply those entries to the graph in order |
| MtxParser.DiagonalEntrySetsNodeData | mtx/mtxParser.js:85-87 | when row equals column, the line sets that node's payload (absent if the value is absent) and the link list is unchanged |
| MtxParser.OffDiagonalEntryAddsLink | mtx/mtxParser.js:88-90 | when row differs from column, exactly one link `row -> col` is appended, even if the same link exists |
| MtxParser.UnparsableIdsMakeALink | mtx/mtxParser.js:81-90 | ids that do not parse are NaN, and NaN `===` NaN is false, so `x x` adds a NaN-to-NaN link, not node data |
| MtxParser.WhiteSpaceLineMakesNaNLink | mtx/mtxParser.js:81-90 | a data line of white space only (a lone `\r` from CRLF text, say) has NaN for both ids and adds exactly one NaN-to-NaN link with no payload |
| MtxParser.UnparsableRowMakesALink | mtx/mtxParser.js:81-90 | a data line whose first token starts with neither a digit nor a sign has a NaN row and appends exactly one link from NaN, whatever its column |
| MtxParser.UnparsableColumnMakesALink | mtx/mtxParser.js:81-90 | a data line whose second token starts with neither a digit nor a sign has a NaN column and appends exactly one link to NaN, even when the row is NaN too |
| MtxParser.PaddedEntryTokens | mtx/mtxParser.js:103-107 | ` r c ` tokenizes to `[r, c, ""]` because only the leading run is stripped |
| MtxParser.IndentedEntryTokens | mtx/mtxParser.js:103-107 | an indented line with white-space runs between row, column and value tokenizes to exactly those three tokens |
| MtxParser.IndentedEntrySpells | mtx/mtxParser.js:103-107 | an indented line with a row, column and value spells that entry |
| MtxParser.PaddedDiagonalGetsEmptyValue | mtx/mtxParser.js:83-87 | a padded diagonal line ` k k ` sets node `k`'s payload to `parseFloat("")`, not undefined |
| MtxParser.PaddedEntryGetsEmptyValue | mtx/mtxParser.js:83 | a present but empty third token still goes through `parseFloat`; an absent one leaves the payload undefined |
| MtxParser.Lines.constructor | mtx/mtxParser.js:55 | a new description array is empty |
| MtxParser.Lines.Push | mtx/mtxParser.js:75 | `push` appends one line at the end of the array and keeps the lines before it |
| MtxParser.LineParser.constructor | mtx/mtxParser.js:53-57 | a new parser owns a fresh graph and a fresh description array; its graph is empty, its description is empty and it waits for the header |
| MtxParser.LineParser.Parse | mtx/mtxParser.js:69-100 | the parser's new state is `Step` of its old state and the line; the new state is the contents of its graph object, its description array and its state |
| MtxParser.LineParser.GetGraph | mtx/mtxParser.js:60-62 | returns the parser's own live graph object and changes nothing |
| MtxParser.LineParser.GetDescription | mtx/mtxParser.js:63-65 | returns the parser's own live description array, which later `%` lines keep extending, and changes nothing |
| Mtx.CreateLineParser | mtx/index.js:67-70 | returns a fresh parser, with its own graph and description array, in the initial state |
| Mtx.Load | mtx/index.js:33-44 | returns a fresh graph equal to feeding every piece of `text.split('\n')`, in order, to a new parser |
| Mtx.LoadEmptyText | mtx/index.js:36-41 | loading the empty text gives the empty graph |
| Mtx.StreamingMatchesLoad | mtx/index.js:33-44 | feeding newline-free lines one by one gives the same graph as loading their `\n`-join |
| Mtx.FeedDocument | mtx/index.js:39-41 | comments, a header, then lines spelling entries, fed to a fresh parser, build the graph those entries build, in order; the dimensions are never checked |
| Mtx.LoadDocument | mtx/index.js:33-44 | that document, as one `\n`-joined text, loads as the graph its entries build |
| Mtx.SampleEntriesSpell | test/mtx.js:45-52 | each data line of the sample spells its entry |
| Mtx.SampleNodeStep | test/mtx.js:45-52 | each diagonal sample entry sets one node's payload |
| Mtx.SampleLinkStep | test/mtx.js:48-51 | each off-diagonal sample entry appends its link; the link `4 2` keeps node 2's value |
| Mtx.SampleStep | test/mtx.js:45-52 | each sample entry takes the graph to the next stage |
| Mtx.SampleTrace | test/mtx.js:45-52 | the first `k` sample entries build the `k`-th stage |
| Mtx.SampleEntriesGraph | test/mtx.js:45-52 | the eight sample entries build five nodes with their diagonal values and the links 1->4, 4->2 and 4->5 |
| Mtx.SampleGraphCounts | test/mtx.js:9-16 | that graph has 5 nodes and 3 links, has the link 1->4, and node 2 has the value 1.5 |
| Mtx.SampleLineHasNoBreak | test/mtx.js:45-52 | a sample data line holds no line break |
| Mtx.SampleLinesAreLines | test/mtx.js:44-52 | the dimensions line is content; no sample line holds a line break |
| Mtx.SampleDocument | test/mtx.js:6-18 | loading the sample document, whatever its `%` block, gives 5 nodes and 3 links, the link 1->4, and node 2 keeps 1.5 |
| Json.SavedRecords | json/index.js:33-69 | one node record per node and one link record per link, in iteration order, with their ids; `data` is present exactly when the payload is defined |
| Json.Save | json/index.js:26-46 | the stored object built by the two push loops is `Saved` of the graph |
| Json.Load | json/index.js:75-106 | returns a fresh, well-formed graph equal to `Loaded`, or throws exactly what `Loaded` says |
| Json.LoadNodesOutcome | json/index.js:87-94 | the node loop throws exactly when some node record lacks `id`, and throws the node `Error` |
| Json.LoadLinksOutcome | json/index.js:96-103 | the link loop throws exactly when some link record lacks an end, and throws the bare string |
| Json.LoadOutcome | json/index.js:75-106 | the checks run in order: not a string, then missing arrays, then node ids, then link ends; a graph is returned exactly when none fails |
| Json.LoadNodesData | json/index.js:87-94 | the node loop adds no link; the nodes are the old ones plus the record ids; untouched nodes keep their payloads; each id gets the data of its last record |
| Json.LoadNodesOrder | json/index.js:87-94 | distinct new node ids are appended in stored order after the existing nodes |
| Json.LoadLinksGraph | json/index.js:96-103 | the link loop appends the records' links in order and never changes a payload or the existing node order; with existing ends it adds no node |
| Json.LoadedLinks | json/index.js:96-103 | the loaded graph's links are the link records, in stored order |
| Json.LoadedPayloads | json/index.js:87-103 | nodes come before links, so each node keeps the data of its last node record even if links touch it later |
| Json.LoadedNodeOrder | json/index.js:87-103 | with distinct ids, the node records give the first nodes of the loaded graph, in stored order |
| Json.SavedNodeIds | json/index.js:33-37 | the saved node records carry the graph's ids in order, all present and distinct, with their payloads |
| Json.SavedNodesLoadIds | json/index.js:87-94 | the node loop over the saved node records rebuilds the graph's node order |
| Json.SavedNodesKeepPayloads | json/index.js:87-94 | the node loop over the saved node records gives every node its payload |
| Json.SavedNodesOnly | json/index.js:87-94 | the node loop over the saved node records creates no other node and no link |
| Json.SavedNodesLoad | json/index.js:87-94 | the node loop over the saved node records rebuilds exactly the graph's nodes, in order and with their payloads, and no link |
| Json.SavedLinksOf | json/index.js:39-43 | the saved link records all have both ends and describe exactly the graph's links |
| Json.SavedLinkEnds | json/index.js:58-69 | in a well-formed graph both ends of every saved link are nodes |
| Json.SaveLoadRoundTrip | json/index.js:17-19 | loading what `save` stored gives back exactly the well-formed graph that was saved |
| Json.SaveLoadOneLink | test/json.js:5-25 | saving the graph with one link 1->2 stores 2 nodes and the link 1->2; loading that gives 2 nodes, both present, and that one link |

## Left out

- `JSON.stringify` and `JSON.parse`: the stored object is modelled as records. `load` takes either that object as text or a value that is not a string. Three kinds of input are not modelled: a string that is not valid JSON; JSON `null`, at the top level or as a node or link record, where the source raises a `TypeError`; and `nodes` or `links` values that are not arrays, where the source runs no loop iteration for a value without a `length`.
- `parseFloat`: the value stays symbolic, named by its token. Floating point is not modelled.
- The `stats` record of the parser: it is written but never read.
- Reading files and the `lazy` line streaming shown in the doc comments. These are I/O; a stream of lines is modelled as a sequence.
- The graph library's internals: a graph is modelled only by what `addNode`, `addLink`, `forEachNode`, `forEachLink`, `getNode`, `hasLink` and the counts do. `forEachNode` and `forEachLink` are taken to visit in insertion order.
- JavaScript numbers as ids: `parseInt` yields unbounded integers. Precision loss beyond 2^53 and negative zero are not modelled.
- Strings are sequences of Unicode scalar values, where JavaScript has UTF-16 code units. So a character outside the Basic Multilingual Plane is one `char` here but two code units there, and lone surrogates cannot occur. This core is unaffected by the difference: every character it tests (`%`, `\n`, the `\s` set, digits and signs) is in the Basic Multilingual Plane, and the only indexing is `slice(1)` after a leading `%`.
- `Mtx.Load` returns only the graph: the description is not attached to it, as in the source.
- Mtx.SampleDocument: the sample's block of `%` lines is a parameter (any non-empty `%` lines without a line break), not the literal lines of the test.
- Json.SaveLoadRoundTrip: proved over stored records, for well-formed graphs (distinct node ids, link ends that are nodes), which is what the graph library maintains. It holds through real JSON text only for ids and payloads that JSON preserves. `JSON.stringify` turns NaN and Infinity into `null`, and the MTX parser produces such values: NaN ids from unparsable tokens, and `parseFloat("")` payloads.
