# C2MM mind map — a verified model of its core

C2MM turns a YouTube link or an uploaded transcript into a mind map with the help of
a language model, and then lets the user grow the map. This project models the part
of the application that decides what the map contains:

- **Reply cleaning** (`lib/parse.ts`). Before a model reply is handed to `JSON.parse`
  it is trimmed, a ```` ``` ```` fence is stripped, a known junk-word pattern between
  objects is repaired, and a stray prefix or suffix around an object is cut off. On
  failure the error message carries a preview of at most 200 characters. Modules
  `Strings` and `Parse`.
- **Obsidian export** (`lib/obsidianExport.ts`). It sanitises a note's file name and
  writes the note's Markdown: frontmatter, description and outgoing links. Module
  `ObsidianExport`.
- **The graph container** (`components/ContentContainer.tsx`). It holds the node and
  edge data sets, the id counter and the loading status, and runs these operations:
  - id generation;
  - loading and normalising a map, including historical dates and their ordering;
  - elaborate, examples, pros and cons, and explain;
  - adding a node from chat and adding a connector node;
  - merging new content, expanding the map, and adding missing descriptions;
  - enhancing a description and freezing a node;
  - selecting nodes for export and for flashcards.

  Each operation is a function on a `GraphState` value:
  - `MapState`, `MapQueries` and `ExpandMap` hold the edit operations;
  - `LoadMap` and `Historical` handle loading;
  - `MergeContent` handles merging.

  The class `ContentContainer.Container` keeps the same state in fields and updates
  it step by step, as the component does. Each method is proved to leave exactly the
  state the matching function describes. The data-set and id invariants the functions
  preserve therefore hold for the class too.
- **Session rules** (`App.tsx`). These cover:
  - the connection mode, including the selection of nodes to connect and the connector
    request with its centroid;
  - flashcard back texts and CSV rows;
  - the source a submit uses;
  - the busy flags and the generate button.

  Module `Session`, with class `Session.ConnectionSession`.
- **Chat rendering** (`components/ChatPanel.tsx`). A chat message is split into plain
  text and `**entity**` segments. Each entity is classified against the map's labels,
  and repeated clicks on an entity are suppressed. Module `ChatPanel`, with class
  `ChatPanel.EntityClicks`.

The language model, the random UUID source and `JSON.parse` are outside the model:
- **Model replies** are parameters. An operation that calls the model once per item
  takes a function from the item's position to its reply.
- **The UUID source** is a fixed oracle `uuid: nat -> Suffix` in the container's
  environment, read at an increasing draw counter.
- **`JSON.parse`** is the `jsonParse` parameter of `Parse.ParseJSON`.

Optional text fields are modelled as strings, with the empty string for "absent". Where
the source tests such a field for truth, a missing and an empty value behave alike. Where
it writes one into a template string, a missing value prints as `undefined` and the model
differs; "## Left out" names that place.

## Model

| member | source | states |
|---|---|---|
| Parse.StripFence | lib/parse.ts:8-16 | the working text is always trimmed, and is the trimmed reply unless that is a fence around a non-empty body |
| Parse.StripFenceLeavesBare | lib/parse.ts:8-16 | a bare payload that opens with a bracket and ends in a non-blank character passes the fence step unchanged |
| Strings.TrimStart | lib/parse.ts:8 | the result is a suffix of the input and does not start with whitespace |
| Strings.TrimStartRemovesWhitespace | lib/parse.ts:8 | everything `trimStart` drops is whitespace |
| Strings.TrimEnd | lib/parse.ts:8 | the result is a prefix of the input and does not end with whitespace |
| Strings.TrimEndRemovesWhitespace | lib/parse.ts:8 | everything `trimEnd` drops is whitespace |
| Strings.Trim | lib/parse.ts:8 | the trimmed text neither starts nor ends with whitespace |
| Strings.TrimKeeps | lib/parse.ts:8 | trimming text with no whitespace at either end leaves it unchanged |
| Strings.IndexOf | lib/parse.ts:49 | `indexOf` is -1 exactly when the character is absent, and otherwise an index of the text |
| Strings.LastIndexOf | lib/parse.ts:50 | `lastIndexOf` is -1 exactly when the character is absent, and otherwise an index of the text |
| Strings.NatToStringInjective | components/ChatPanel.tsx:81 | distinct message indices print as distinct decimal strings |
| Strings.DigitsValueOfNatToString | components/ChatPanel.tsx:81 | the decimal string of an index reads back as that index |
| Parse.WordSpan | lib/parse.ts:10 | the `\w*` language tag of a fence is a run of word characters |
| Parse.FenceBody | lib/parse.ts:10-15 | the fenced content taken out of a fence has no whitespace at either end |
| Parse.FenceTail | lib/parse.ts:10 | what follows the opening backticks and tag starts with no whitespace and still holds the closing backticks |
| Parse.TailLen | lib/parse.ts:29 | a junk-word match, when one exists, ends at the opening brace |
| Parse.JunkMatchLen | lib/parse.ts:29 | a match of the junk-word pattern starts with the closing quote and ends with the brace |
| Parse.RepairJunk | lib/parse.ts:30-38 | the `test`-guarded replace gives the same text as the unguarded global replace |
| Parse.RepairLeavesJunkFree | lib/parse.ts:29-37 | text in which the junk pattern does not occur is left unchanged |
| Parse.RepairIsJunkFree | lib/parse.ts:29-37 | after the global replace no junk word remains between a string and an object |
| Parse.RepairIdempotent | lib/parse.ts:29-37 | repairing twice is the same as repairing once |
| Parse.Rescue | lib/parse.ts:44-56 | the text is cut down to the span from its first `{` to its last `}` exactly when it is neither a bracketed array nor a braced object and holds a `{` before a later `}`; otherwise it is kept as it is |
| Parse.RescueIsOutermost | lib/parse.ts:49-52 | the rescued span runs from the first `{` to the last `}` of the text |
| Parse.RescueIdempotent | lib/parse.ts:44-56 | rescuing an already rescued text changes nothing |
| Parse.Preview | lib/parse.ts:63 | texts up to 200 characters are shown whole, longer ones as their first 200 characters and "..." |
| Parse.ParseErrorMessage | lib/parse.ts:64 | the thrown message starts with the fixed lead and the preview of the cleaned text and ends with the parser's own message |
| Parse.ParseJSON | lib/parse.ts:7-65 | parsing succeeds exactly when the JSON parser accepts the cleaned text, and then yields its value |
| Parse.Fenced | lib/parse.ts:10 | every text built as backticks, tag, whitespace, body, whitespace, backticks is matched by the fence pattern |
| Parse.StripFenceRecoversBody | lib/parse.ts:10-16 | unwrapping a fence built around a JSON body gives that body back |
| Parse.FenceTailOfFenced | lib/parse.ts:10-16 | after the tag of a built fence the matcher sees the body, the closing whitespace and the closing backticks |
| Parse.ParseFencedAsBare | lib/parse.ts:7-59 | a fenced JSON reply parses exactly like the bare JSON inside it |
| ObsidianExport.ReplaceForbidden | lib/obsidianExport.ts:24 | each of `/ \ : * ? " < > \|` becomes `_` and every other character is kept |
| ObsidianExport.UnderscoreRun | lib/obsidianExport.ts:28 | the leading run of underscores is maximal |
| ObsidianExport.Collapse | lib/obsidianExport.ts:28 | collapsing underscore runs never lengthens the text and keeps its first and last characters |
| ObsidianExport.CollapseNoDouble | lib/obsidianExport.ts:28 | no two underscores in a row remain after collapsing |
| ObsidianExport.CollapseRun | lib/obsidianExport.ts:28 | a maximal run of one or more underscores becomes a single underscore, and collapsing carries on after it |
| ObsidianExport.CollapseOther | lib/obsidianExport.ts:28 | a character other than an underscore is kept in its place, and collapsing carries on after it |
| ObsidianExport.CollapseKeeps | lib/obsidianExport.ts:28 | text without a double underscore is left unchanged |
| ObsidianExport.CollapseNoForbidden | lib/obsidianExport.ts:24-28 | collapsing introduces no forbidden character |
| ObsidianExport.TrimNoForbidden | lib/obsidianExport.ts:24-26 | trimming introduces no forbidden character |
| ObsidianExport.SanitizeFilename | lib/obsidianExport.ts:18-39 | a sanitized file name is never empty, holds no forbidden character, no double underscore and no whitespace at either end; an empty or all-whitespace title gets `Untitled_Note`, any other title gets its replaced, trimmed and collapsed text |
| ObsidianExport.CleanedEmpty | lib/obsidianExport.ts:24-32 | replacing, trimming and collapsing leave nothing exactly when the title is all whitespace |
| Strings.TrimEmpty | lib/obsidianExport.ts:26-32 | `trim` leaves nothing exactly when the text is all whitespace |
| ObsidianExport.SanitizeKeeps | lib/obsidianExport.ts:18-39 | a name that is already clean is returned as is |
| ObsidianExport.SanitizeIdempotent | lib/obsidianExport.ts:18-39 | sanitizing twice is the same as sanitizing once |
| ObsidianExport.UntitledIsSanitized | lib/obsidianExport.ts:20-31 | the fallback name `Untitled_Note` is itself a clean name |
| ObsidianExport.ListLines | lib/obsidianExport.ts:47-52 | each tag or alias becomes one `  - ` line, in order |
| ObsidianExport.Block | lib/obsidianExport.ts:45-53 | a tags or aliases block is absent exactly when its list is empty, and is otherwise the heading followed by the items |
| ObsidianExport.FrontmatterParts | lib/obsidianExport.ts:42-53 | the front matter starts with the title line and holds exactly the title, tags block and aliases block |
| ObsidianExport.FrontmatterBlocks | lib/obsidianExport.ts:42-53 | the tags block follows the title line and the aliases block follows the tags block |
| ObsidianExport.LinkLines | lib/obsidianExport.ts:69-71 | each outgoing link becomes one `- [[title]]` line, in order |
| ObsidianExport.NoteLayout | lib/obsidianExport.ts:55-75 | the note starts with `---` and the title line, and is the front matter closed by `---`, a newline and the body |
| ObsidianExport.GenerateMarkdownContent | lib/obsidianExport.ts:41-76 | the method builds exactly the note described by the front-matter and body definitions |
| MindMap.ExplanationName | lib/types.ts:10-17 | every explanation kind has a non-empty name used in its node group `explanation_<kind>` |
| MindMap.IndexOfId | components/ContentContainer.tsx:150 | the index of the first node with the given id, or -1 exactly when no node has that id |
| MindMap.FindNode | components/ContentContainer.tsx:150 | a data-set lookup by id finds nothing exactly when the id is absent, and otherwise a node of the set with that id |
| MindMap.FindByLabel | components/ContentContainer.tsx:614 | the case-insensitive label search fails exactly when no caption matches, and otherwise returns a matching node of the map |
| MindMap.FindByLabelFirst | components/ContentContainer.tsx:614 | the search returns the first matching node in order |
| MapQueries.NodesWithIdIn | components/ContentContainer.tsx:681 | filtering by an id set keeps only nodes of the map whose id is in the set |
| MapQueries.ExpandTargetsOf | components/ContentContainer.tsx:660-681 | every node chosen for expansion is a node of the map that is top level: a center, main or era node, or one with no incoming edge from such a node |
| MapQueries.TopLevelIdsNonEmpty | components/ContentContainer.tsx:677-679 | a non-empty map always has at least one top-level id |
| MapQueries.NodesWithIdInMatches | components/ContentContainer.tsx:660-681 | filtering by the collected id set picks exactly the nodes that satisfy the top-level rule |
| MapQueries.ExpandTargetsAreTopLevel | components/ContentContainer.tsx:660-687 | the expansion targets are exactly the top-level nodes in map order, and are never empty for a non-empty map, so the three-node fallback and the "No suitable nodes" error cannot fire then |
| MapQueries.TopLevelIdOf | components/ContentContainer.tsx:660-679 | a node's id is collected exactly when the node satisfies the top-level rule |
| MapQueries.TargetsOfContains | components/ContentContainer.tsx:681 | the targets are non-empty as soon as one node satisfies the rule |
| MapQueries.Filter | components/ContentContainer.tsx:681 | a filter keeps only nodes of the input that pass the test, and keeps every node that passes it |
| MapQueries.FilterSingle | components/ContentContainer.tsx:681 | a single node is kept exactly when it passes the test |
| MapQueries.FilterAppend | components/ContentContainer.tsx:681 | filtering a concatenation is filtering each part, in order, so the result is the passing nodes in their input order |
| MapQueries.FilterEmpty | components/ContentContainer.tsx:763-768 | a filter is empty exactly when no node passes the test |
| MapQueries.NodesNeedingDescription | components/ContentContainer.tsx:763 | nodes picked for a new description are exactly the nodes with an empty or blank description, or one equal to their label |
| MapQueries.NothingNeedsDescription | components/ContentContainer.tsx:763-768 | "Add descriptions" stops early with zero updates exactly when no node needs a description |
| MapQueries.WhitespaceToUnderscore | components/ContentContainer.tsx:862 | an era turned into a tag holds no whitespace |
| MapQueries.WhitespaceRunToUnderscore | components/ContentContainer.tsx:862 | a maximal run of whitespace in an era becomes a single underscore, and the conversion carries on after it |
| MapQueries.WhitespaceToUnderscoreKeeps | components/ContentContainer.tsx:862 | a character of an era that is not whitespace is kept in its place |
| MapQueries.LinkTitles | components/ContentContainer.tsx:864-867 | a note links exactly to the labels of the existing targets of the node's outgoing edges |
| MapQueries.ObsidianExportData | components/ContentContainer.tsx:855-869 | there is export data exactly when a map is loaded, one note per node, in order, titled with the node's label |
| MapQueries.NoteDescriptionAndTags | components/ContentContainer.tsx:861-862 | a note's description is the node's description unless that is empty or equal to the label; it has one tag exactly when the node has an era, and tags hold no whitespace |
| MapQueries.ImportantFrom | components/ContentContainer.tsx:880-897 | every flashcard comes from a labelled node that is important: center or main, an era or event of a historical map, or of weight at least 6 in Obsidian style |
| MapQueries.ImportantNodesForFlashcards | components/ContentContainer.tsx:870-899 | there is a card list exactly when a map is loaded, with no more cards than nodes, each from a labelled important node |
| MapQueries.ImportantFromTakesAll | components/ContentContainer.tsx:880-897 | with distinct ids the already-added set never skips a node, so the cards are exactly those of the important labelled nodes in order |
| MapQueries.AllNodeLabels | components/ContentContainer.tsx:444-450 | no labels without a map; otherwise one trimmed label per node, in order |
| MapState.InitialState | components/ContentContainer.tsx:109-119 | a fresh container has no data sets, no nodes or edges and a zero id counter |
| MapState.SameDataKeeps | components/ContentContainer.tsx:147-155 | a step that changes only status fields keeps unique ids and loses nothing |
| MapState.GeneratedId | components/ContentContainer.tsx:125-128 | a generated id starts with the caller's prefix |
| MapState.GeneratedIdsDiffer | components/ContentContainer.tsx:125-128 | two ids minted at different counter values differ, whatever their prefixes and random suffixes, as long as each prefix ends in `_` |
| MapState.Minted | components/ContentContainer.tsx:125-128 | an id minted at counter value n carries n as its counter |
| MapState.CountersSeparate | components/ContentContainer.tsx:125-128 | ids carrying different counter values are different ids |
| MapState.CountedFromDistinct | components/ContentContainer.tsx:125-128 | ids minted at increasing counter values are pairwise distinct |
| MapState.TryAddKeeps | components/ContentContainer.tsx:181 | adding a batch keeps ids unique; it succeeds exactly when neither batch clashes with an existing id or itself, and then appends both batches |
| MapState.TryAddAllOrNothing | components/ContentContainer.tsx:181 | a batch add either appends the whole batch or leaves the data set unchanged, and touches nothing else |
| MapState.SettleKeeps | components/ContentContainer.tsx:181-186 | settling the outcome of a batch add into ready or error keeps ids unique and loses nothing |
| MapState.DetailPrefix | components/ContentContainer.tsx:171 | every elaboration, example, pros and cons id prefix ends in `_` |
| MapState.DetailNodes | components/ContentContainer.tsx:169-180 | one new node per detail in the reply |
| MapState.DetailEdges | components/ContentContainer.tsx:169-180 | one new edge per detail in the reply |
| MapState.DetailIdsDistinct | components/ContentContainer.tsx:169-180 | the new nodes carry consecutive counter values, so the node ids and the edge ids of a batch are pairwise distinct |
| MapState.DetailAddedIs | components/ContentContainer.tsx:169-181 | proof step: the detail action is the batch add of the built nodes and edges on the advanced counter |
| MapState.DetailOpSuccess | components/ContentContainer.tsx:143-186 | proof step: with a selected, existing node and a list reply, the action starts loading and adds the details |
| MapState.DetailOpBatch | components/ContentContainer.tsx:143-186 | with a selected, existing node and a list reply, the action adds exactly the nodes and edges built from the reply |
| MapState.DetailOpKeeps | components/ContentContainer.tsx:143-193 | elaborate, examples, pros and cons keep ids unique and lose nothing, whatever the reply |
| MapState.DetailOpAttaches | components/ContentContainer.tsx:169-182 | when the new ids are fresh the action ends ready with the new nodes and edges appended |
| MapState.DetailBatchShape | components/ContentContainer.tsx:169-180 | the i-th new node has the detail's label, its title or else its label, the action's group and the i-th new counter value; its edge runs from the selected node to it with the relationship label |
| MapState.DetailOpRefusal | components/ContentContainer.tsx:149-192 | with no selection, a missing node or a bad reply nothing is added and an error is recorded, and after loading started the network is in error |
| MapState.ExplainPrefix | components/ContentContainer.tsx:552 | every explanation id prefix ends in `_` |
| MapState.ExplainAddedIs | components/ContentContainer.tsx:552-566 | proof step: the explanation adds the built node and edge on the advanced counter |
| MapState.ExplainOpSuccess | components/ContentContainer.tsx:523-572 | proof step: with a selected, existing node and a valid reply, the action adds the explanation |
| MapState.ExplainOpKeeps | components/ContentContainer.tsx:523-579 | explaining keeps ids unique and loses nothing; on a missing selection or a bad reply nothing is added and an error is recorded |
| MapState.ExplainOpAttaches | components/ContentContainer.tsx:552-568 | when the new ids are fresh the action ends ready with one node and one edge appended |
| MapState.ExplainShape | components/ContentContainer.tsx:552-566 | the new node has the reply's label, its title or else its label, group `explanation_<kind>` and the next counter value; the edge runs from the selected node to it with the relationship label |
| MapState.ChatParent | components/ContentContainer.tsx:612-617 | a parent chosen from the chat reply is a node of the map whose label matches case-insensitively |
| MapState.ChatLinkKeeps | components/ContentContainer.tsx:609-628 | linking a chat node keeps ids unique and adds no node; it reports success exactly when it ends ready, and adds one edge, from the matched parent to the new node labelled "related (from chat)", exactly when a parent was found |
| MapState.ChatAddSuccess | components/ContentContainer.tsx:599-607 | when the new node's id is fresh, the chat action adds it and then looks for the parent |
| MapState.ChatAddKeeps | components/ContentContainer.tsx:599-642 | adding from chat keeps ids unique and loses nothing; success exactly when the network ends ready, and no edge is added on failure |
| MapState.ChatOpKeeps | components/ContentContainer.tsx:580-644 | without a map nothing changes and nothing is added; otherwise success matches a ready network, requires a non-empty definition, and no edge is added on failure |
| MapState.ChatOpAttaches | components/ContentContainer.tsx:599-628 | with a definition and a fresh id the entity is added as a `chat_added` node titled with the definition; the edge appears exactly when a parent matches, and a missing parent still counts as success |
| MapState.ConnectorEdgePrefix | components/ContentContainer.tsx:392 | every connector edge id prefix ends in `_` |
| MapState.ConnectorEdges | components/ContentContainer.tsx:391-398 | one dashed "connects" edge from the connector to each selected node, in order |
| MapState.ConnectorEdgesDistinct | components/ContentContainer.tsx:391-398 | connector edge ids carry consecutive counter values and are pairwise distinct |
| MapState.ConnectorLinkKeeps | components/ContentContainer.tsx:391-419 | adding the connector edges keeps ids unique and adds no node; on success it returns the connector's id, ends ready and appends exactly the connector edges |
| MapState.ConnectorOpSuccess | components/ContentContainer.tsx:376-401 | when the connector id is fresh, the action adds the connector node and then its edges |
| MapState.ConnectorOpKeeps | components/ContentContainer.tsx:354-427 | making a connection keeps ids unique and loses nothing; it returns an id exactly when the network ends ready |
| MapState.ConnectorOpAttaches | components/ContentContainer.tsx:376-419 | with fresh ids the action returns the new id, ends ready and appends the connector node and all its edges |
| MapState.SetFixed | components/ContentContainer.tsx:740 | updating a node's pinned state keeps the ids and their order |
| MapState.IndexOfIdIs | components/ContentContainer.tsx:738 | the lookup finds the first node with the id |
| MapState.FindNodeAfterSet | components/ContentContainer.tsx:738-740 | after the update the node is found with only its pinned state changed |
| MapState.FreezeOpToggles | components/ContentContainer.tsx:733-749 | freezing fails, changing nothing, exactly when no existing node is selected; otherwise it flips the selected node's frozen state, doing it twice restores it, and no other node changes |
| MapState.SetTitle | components/ContentContainer.tsx:780 | updating a node's description keeps the ids and their order |
| MapState.DescribeAll | components/ContentContainer.tsx:773-788 | the description loop keeps the ids and counts at most one update per target |
| MapState.DescribeNext | components/ContentContainer.tsx:774-787 | one iteration keeps the ids and adds at most one to the count |
| MapState.DescribedBounds | components/ContentContainer.tsx:773-788 | the loop invariant holds at the start, and at the end it pins down the result of the description loop |
| MapState.DescribeAllStep | components/ContentContainer.tsx:773-788 | the loop over one more target is the loop so far followed by one more iteration |
| MapState.SetTitleFills | components/ContentContainer.tsx:779-780 | filling one needing node with a trimmed non-blank description changes only descriptions of nodes that needed one |
| MapState.DescribeAllOnlyFills | components/ContentContainer.tsx:763-787 | the loop only fills descriptions of nodes that needed one, each with a trimmed non-blank text |
| MapState.DescribeOpKeeps | components/ContentContainer.tsx:750-802 | "Add descriptions" keeps ids and edges, fails exactly without a map, updates at most the nodes that needed a description, and changes nothing else |
| MapState.FindNodeAfterSetTitle | components/ContentContainer.tsx:827 | after the update the node is found with only its description changed |
| MapState.EnhanceOpAppends | components/ContentContainer.tsx:803-843 | enhancing fails, changing nothing, without an existing selected node; otherwise the new description is exactly the old description (or the label), a blank line and the trimmed non-blank reply, and is reported, while a blank reply or an error changes no description |
| MapState.EnhanceFoundAppends | components/ContentContainer.tsx:812-842 | for an existing node, the enhancement outcome is as described above and ids stay unique |
| MapState.ClickOp | components/ContentContainer.tsx:1262-1281 | in connection mode a click leaves the selection alone; otherwise the clicked node, or none, becomes the selection |
| MapState.SelectedNodeDetails | components/ContentContainer.tsx:901-907 | details exist exactly when the selected id names a node of the loaded map, and are that node's id, label and description |
| ExpandMap.ExpandLabel | components/ContentContainer.tsx:701-705 | a sub-node keeps its label unless that is a `Node<digits>` placeholder, and a replacement is the 3 to 40 character start of the title before its first `.` and `,` |
| ExpandMap.ExpandLabelReplaces | components/ContentContainer.tsx:702-704 | a placeholder label with a title of 6 to 49 characters is replaced by that start of the title when its length is 3 to 40 |
| ExpandMap.ExpandPrefix | components/ContentContainer.tsx:707 | every expansion id prefix ends in `_` |
| ExpandMap.ExpandNode | components/ContentContainer.tsx:707-708 | a sub-node gets the i-th expansion id and the `historical_event` or `detail` group |
| ExpandMap.ExpandEdge | components/ContentContainer.tsx:709 | a sub-node's edge runs from the parent to the sub-node |
| ExpandMap.ExpandNodes | components/ContentContainer.tsx:698-711 | one sub-node per reply item, all in the expansion group |
| ExpandMap.ExpandEdges | components/ContentContainer.tsx:698-711 | one edge per reply item, each from the parent to its sub-node |
| ExpandMap.ExpandIdsDistinct | components/ContentContainer.tsx:707 | the node ids and the edge ids of one parent's batch are pairwise distinct |
| ExpandMap.ExpandStepOf | components/ContentContainer.tsx:697-713 | proof step: a list reply for one parent adds that parent's batch |
| ExpandMap.ExpandAllStep | components/ContentContainer.tsx:691-718 | expanding one more parent is the expansion so far followed by one more step, and the count grows by that step's count |
| ExpandMap.ExpandStepKeeps | components/ContentContainer.tsx:691-717 | one parent's step keeps ids unique, loses nothing, advances the counter by the items counted, and only adds sub-nodes under that parent |
| ExpandMap.ExpandBatchKeeps | components/ContentContainer.tsx:698-713 | adding one parent's batch keeps ids unique and only adds expansion nodes and edges from that parent |
| ExpandMap.AddedUnderBatch | components/ContentContainer.tsx:712-713 | a batch whose edges all leave the parent and whose nodes are all in the expansion group only adds under that parent |
| ExpandMap.ExpandStepAttaches | components/ContentContainer.tsx:697-713 | with fresh ids a list reply appends exactly the parent's sub-nodes and edges and counts them all |
| ExpandMap.ExpandAllKeeps | components/ContentContainer.tsx:691-718 | the whole loop keeps ids unique, loses nothing, and adds only expansion nodes and edges leaving the targets, no more nodes than counted |
| ExpandMap.ExpandOpKeeps | components/ContentContainer.tsx:645-732 | expansion fails without a map or on an empty one, changing nothing without a map; otherwise it ends ready, reports the count of sub-nodes it built, and adds only under the top-level targets |
| Historical.Split | components/ContentContainer.tsx:1002 | splitting on `-` gives one piece exactly when there is no `-`, and no piece holds one |
| Historical.DateYear | components/ContentContainer.tsx:1004-1008 | a year from 0 to 99 is read as 1900 to 1999 by the date constructor, any other year as itself |
| Historical.YearText | components/ContentContainer.tsx:1003-1004 | a four-digit year text is read back as the year it writes |
| Historical.TwoDigits | components/ContentContainer.tsx:1005-1008 | a one- or two-digit text is read back as the number it writes |
| Historical.PaddedValue | components/ContentContainer.tsx:1004 | a zero-padded number reads back as that number |
| Historical.SplitAtFirst | components/ContentContainer.tsx:1002 | splitting gives the text before the first `-`, then the pieces of the rest |
| Historical.ParseDateReadsFullDate | components/ContentContainer.tsx:1007-1008 | a `YYYY-MM-DD` date is placed on the day its year, month and day name |
| Historical.ParseDateReadsYear | components/ContentContainer.tsx:1003-1004 | a bare `YYYY` date is placed on the first of January of that year |
| Historical.EarlyYearsReadAsTwentiethCentury | components/ContentContainer.tsx:1004 | the years 0000 to 0099 are placed on the same day as 1900 to 1999 |
| Historical.DatedNodes | components/ContentContainer.tsx:1018 | the nodes with a parsed date, no more than there are nodes |
| Historical.UndatedNodes | components/ContentContainer.tsx:1019 | the nodes without a parsed date, no more than there are nodes |
| Historical.Insert | components/ContentContainer.tsx:1021 | inserting into the date order adds exactly one dated node |
| Historical.InsertPermutes | components/ContentContainer.tsx:1021 | insertion adds the node and loses nothing |
| Historical.SortByDate | components/ContentContainer.tsx:1021 | sorting keeps the number of nodes and their being dated |
| Historical.SortByDatePermutes | components/ContentContainer.tsx:1021 | sorting is a permutation of the dated nodes |
| Historical.InsertSorted | components/ContentContainer.tsx:1021 | inserting into a date-ordered list keeps it ordered |
| Historical.SortByDateSorted | components/ContentContainer.tsx:1021 | the sorted dated nodes are in non-decreasing date order |
| Historical.OnDayAppend | components/ContentContainer.tsx:1021 | the nodes on a given day of a concatenation are those of each part in turn |
| Historical.InsertStable | components/ContentContainer.tsx:1021 | insertion puts the new node after every node on the same day |
| Historical.SortByDateStable | components/ContentContainer.tsx:1021 | the sort is stable: nodes on the same day keep their relative order |
| Historical.SplitByDatePermutation | components/ContentContainer.tsx:1018-1019 | dated and undated nodes together are exactly the input nodes |
| Historical.ChronologicalOrder | components/ContentContainer.tsx:1017-1022 | the historical ordering is a permutation of the nodes: dated ones first in stable date order, then the undated ones in their original order |
| LoadMap.DropNonDigits | components/ContentContainer.tsx:995 | `replace(/^\D+/, '')` drops exactly the leading non-digits |
| LoadMap.DigitRun | components/ContentContainer.tsx:995 | `parseInt` reads the maximal leading run of digits |
| LoadMap.LeadingNumberOf | components/ContentContainer.tsx:995 | the number read from an id made of a non-digit head, a number and a non-digit tail is that number |
| LoadMap.LoadValue | components/ContentContainer.tsx:996-997 | in Obsidian style a node keeps its numeric weight or gets 3, and a center node gets at least 10; otherwise the weight is cleared |
| LoadMap.NodeIdPrefix | components/ContentContainer.tsx:994 | the id prefix for a node without id ends in `_` and starts with the load's prefix |
| LoadMap.NormalizeNode | components/ContentContainer.tsx:993-998 | a loaded node keeps its id, or gets a freshly generated one; an empty label becomes `Node <id>`; the counter rises to the number in a given id, and only the weight otherwise changes |
| LoadMap.NormalizeNodes | components/ContentContainer.tsx:993-998 | normalizing keeps the number of nodes and never lowers the counter |
| LoadMap.NormalizePrefix | components/ContentContainer.tsx:942-948 | the first i normalized nodes depend only on the first i input nodes |
| LoadMap.NormalizeSnoc | components/ContentContainer.tsx:942-948 | normalizing one more node appends that node's normalization on the counter reached so far |
| LoadMap.NormalizeAt | components/ContentContainer.tsx:942-948 | the i-th normalized node is the i-th input normalized on the counter reached by the nodes before it |
| LoadMap.NormalizeCounterGrows | components/ContentContainer.tsx:995 | the id counter never goes down along the load |
| LoadMap.NormalizeNodesAt | components/ContentContainer.tsx:942-948 | every normalized node has an id and a label, keeps its given id, whose number the final counter reaches, or carries the generated prefix |
| LoadMap.NormalizeNodesShape | components/ContentContainer.tsx:993-998 | all loaded nodes are normalized, keep their given ids, and the counter ends at least at every number in a given id |
| LoadMap.NormalizeGeneratedDistinct | components/ContentContainer.tsx:994 | two nodes that both lacked an id get different generated ids |
| LoadMap.LoadEdges | components/ContentContainer.tsx:1053 | each edge keeps its endpoints and id, or gets `edge_<kind>_<i>_` as id |
| LoadMap.LoadEdgeIdsDiffer | components/ContentContainer.tsx:1053 | two edges that lacked an id get different ids |
| LoadMap.InitialLabel | components/ContentContainer.tsx:986-991 | a generated node keeps its label unless it is a `Node<digits>` placeholder, and a replacement is a trimmed piece of the title, 4 to 39 characters, without `.` or `,` |
| LoadMap.FirstClauseWithin | components/ContentContainer.tsx:988 | the trimmed first clause of a title occurs in the title and holds no `.` or `,` |
| LoadMap.HistoricalNode | components/ContentContainer.tsx:999-1013 | in a historical map a node gets `historical_event` as group if it had none, and the parsed date when its date text parses; nothing else changes |
| LoadMap.Pinned | components/ContentContainer.tsx:1043-1048 | timeline nodes are fixed on both axes and otherwise unchanged |
| LoadMap.UndatedKeepsAll | components/ContentContainer.tsx:1019 | when no node is dated, the undated nodes are all nodes |
| LoadMap.NoDatedMeansNone | components/ContentContainer.tsx:1018-1024 | an empty dated list means no node has a date |
| LoadMap.TimelineShape | components/ContentContainer.tsx:1017-1050 | the timeline keeps the number of nodes; without dated nodes it is the input order, otherwise the chronological order with every node pinned |
| LoadMap.TimelineFrom | components/ContentContainer.tsx:1017-1050 | every timeline node is an input node, possibly pinned |
| LoadMap.TimelineSource | components/ContentContainer.tsx:1017-1050 | each timeline node can be traced to an input node |
| LoadMap.Reset | components/ContentContainer.tsx:926-931 | a reload clears both data sets, the selection, the error and the id counter |
| LoadMap.Relabelled | components/ContentContainer.tsx:986-991 | the placeholder labels of a reply are replaced node by node |
| LoadMap.HistoricalNodes | components/ContentContainer.tsx:999-1013 | every node of a historical map is processed as above, in order |
| LoadMap.InstallKeeps | components/ContentContainer.tsx:1054-1056 | installing the data sets succeeds exactly when node ids and edge ids are unique, and then holds exactly the loaded nodes and edges; otherwise the load fails with the duplicate-id error |
| LoadMap.TimelineNormalized | components/ContentContainer.tsx:1017-1050 | the timeline keeps every node normalized |
| LoadMap.TimelineOrdered | components/ContentContainer.tsx:1017-1022 | in the timeline every dated node comes before every undated one, in non-decreasing date order |
| LoadMap.TimelinePinned | components/ContentContainer.tsx:1024-1050 | as soon as one node is dated, every node of the timeline is fixed |
| LoadMap.GenerateNodesShape | components/ContentContainer.tsx:986-1050 | the generated nodes are one per reply node, all normalized, keep given ids outside historical maps, have a group and chronological order in historical maps, and the counter reaches every given id's number |
| LoadMap.HistoricalTimeline | components/ContentContainer.tsx:999-1050 | a historical map's nodes end normalized, grouped and in chronological order |
| LoadMap.PreloadNodesShape | components/ContentContainer.tsx:942-948 | preloaded nodes are one per given node, all normalized, keep given ids, and the counter reaches every given id's number |
| LoadMap.LoadOpKeeps | components/ContentContainer.tsx:921-1057 | loading always ends with unique ids, no selection and not loading; ready exactly when both data sets exist; in error exactly when an error is recorded; without a source it is idle and empty; a missing transcript, a failed reply or a malformed reply end in error with no data |
| LoadMap.LoadOpPreloaded | components/ContentContainer.tsx:940-962 | a preloaded map installs one normalized node per given node with given ids kept and one edge per given edge, and the counter reaches every given id's number |
| LoadMap.LoadOpGenerated | components/ContentContainer.tsx:964-1056 | a generated map installs one normalized node per reply node, chronologically ordered in historical maps, and one edge per reply edge with its endpoints |
| LoadMap.GenerateOpShape | components/ContentContainer.tsx:983-1056 | the same for the installation of a parsed reply |
| MergeContent.IsNewTopLevel | components/ContentContainer.tsx:250-256 | the scan answers true exactly when no edge of the new content ends at the node |
| MergeContent.MergeValue | components/ContentContainer.tsx:259-265 | in Obsidian style a merged node keeps its weight or gets 2, and a node made main gets at least 5; otherwise the weight is cleared |
| MergeContent.MergePrefix | components/ContentContainer.tsx:247 | every merge id prefix ends in `_` |
| MergeContent.MergeNodes | components/ContentContainer.tsx:246-276 | one merged node per new node |
| MergeContent.MergeNodesShape | components/ContentContainer.tsx:246-276 | a merged node keeps the new node's label, description, position and dates, is `main` exactly when it is a new top node and top nodes are to become main, always has a shape, and gets a fresh `merge_<id>_` id |
| MergeContent.MergeNodesDistinct | components/ContentContainer.tsx:247 | merged node ids carry consecutive counter values and are pairwise distinct |
| MergeContent.IdMap | components/ContentContainer.tsx:244-248 | the id map has exactly the new content's ids as keys and maps them to merged ids |
| MergeContent.IdMapSnoc | components/ContentContainer.tsx:248 | recording one more id updates the map at that key |
| MergeContent.RenamedAll | components/ContentContainer.tsx:246-276 | the renaming loop's invariant at the end pins down the merged nodes and the id map |
| MergeContent.IdMapLast | components/ContentContainer.tsx:248 | when an id repeats in the new content, the map keeps the merged id of its last occurrence |
| MergeContent.MergeEdgePrefix | components/ContentContainer.tsx:285 | every merged edge id prefix ends in `_` |
| MergeContent.MergePrefixOf | components/ContentContainer.tsx:285 | an edge without id gets a prefix from a random draw, and it still ends in `_` |
| MergeContent.MergeEdges | components/ContentContainer.tsx:279-291 | no more merged edges than new edges, and the counter advances once per merged edge |
| MergeContent.MergeEdgesKeep | components/ContentContainer.tsx:281-289 | an edge whose two ends were renamed is kept, renamed and given a fresh id |
| MergeContent.MergeEdgesSkip | components/ContentContainer.tsx:282 | an edge with an end outside the new content is dropped |
| MergeContent.MergeEdgesCounted | components/ContentContainer.tsx:285 | merged edge ids are pairwise distinct |
| MergeContent.MergeEdgesJoinNew | components/ContentContainer.tsx:286-287 | every merged edge joins two merged nodes |
| MergeContent.MergeEdgesKeepAll | components/ContentContainer.tsx:279-291 | when every edge stays inside the new content, every edge is kept |
| MergeContent.FirstCenter | components/ContentContainer.tsx:299 | the index of the first center node, or -1 exactly when there is none |
| MergeContent.HeaviestIndex | components/ContentContainer.tsx:299 | the reduce picks the last node of greatest weight |
| MergeContent.RootNode | components/ContentContainer.tsx:299 | the root is absent only on an empty map; it is the first center node, or else the heaviest node in Obsidian style, or else the first node |
| MergeContent.ConnectTarget | components/ContentContainer.tsx:317-322 | for `ROOT_NODE` with a root the target is the root's id; otherwise it is the id of the first node whose label matches case-insensitively, and there is a target whenever such a node exists; an empty id gives none |
| MergeContent.ReconcileSnoc | components/ContentContainer.tsx:306-337 | reconciling one more new top node is the loop so far followed by one step |
| MergeContent.NewTops | components/ContentContainer.tsx:302-303 | the new top nodes are exactly the merged nodes with no incoming merged edge |
| MergeContent.NewTopsAppend | components/ContentContainer.tsx:302-303 | the top nodes of a concatenation are those of each part, in order |
| MergeContent.RenamedIs | components/ContentContainer.tsx:246-291 | proof step: the renaming loops compute the merged nodes and the merged edges over the id map |
| MergeContent.MergeParsedIs | components/ContentContainer.tsx:246-296 | proof step: merging a parsed reply is adding the renamed nodes and edges and then tying in the new top nodes |
| MergeContent.ConnectStepKeeps | components/ContentContainer.tsx:307-336 | one connection step keeps ids unique, adds no node and at most one edge, from a node of the map to the new top node |
| MergeContent.TargetInAll | components/ContentContainer.tsx:317-322 | a connection target is a node of the map |
| MergeContent.ConnectAddKeeps | components/ContentContainer.tsx:324-332 | adding a connection edge keeps ids unique and adds at most one edge, from the target to the new top node |
| MergeContent.ReconcileKeeps | components/ContentContainer.tsx:306-337 | the connection loop keeps ids unique, adds no node and at most one edge per new top node, each from a node of the map to a new top node |
| MergeContent.TieInKeeps | components/ContentContainer.tsx:296-337 | tying in keeps ids unique and adds only edges into new nodes, and does nothing when merging is not attempted |
| MergeContent.AddAndTieKeeps | components/ContentContainer.tsx:293-351 | the add succeeds exactly when the merged ids are fresh, and then ends ready with the merged nodes appended and the merged edges followed only by edges into new nodes; on failure it ends in error |
| MergeContent.MergeParsedKeeps | components/ContentContainer.tsx:237-351 | the same for a parsed reply, stated on its renamed nodes and edges |
| MergeContent.MergeOpKeeps | components/ContentContainer.tsx:209-352 | merging fails, changing nothing, without a map; succeeds only on a valid reply and then ends ready with exactly the merged nodes appended; any other failure ends in error with the message |
| ContentContainer.DetailedBounds | components/ContentContainer.tsx:169-180 | proof step: the batch-building loop's invariant holds at the start and at the end yields exactly the specified nodes and edges |
| ContentContainer.ConnectedBounds | components/ContentContainer.tsx:391-398 | proof step: the connector-edge loop's invariant holds at the start and at the end yields exactly the connector edges |
| ContentContainer.ExpandedBounds | components/ContentContainer.tsx:698-711 | proof step: the sub-node loop's invariant holds at the start and at the end yields exactly the parent's batch |
| ContentContainer.ExpandedAllBounds | components/ContentContainer.tsx:691-718 | proof step: the loop over parents holds its invariant at the start and at the end yields the specified expansion and count |
| ContentContainer.NormalizedBounds | components/ContentContainer.tsx:993-998 | proof step: the normalizing loop's invariant holds at the start and at the end yields the normalized nodes and counter |
| ContentContainer.ReconciledBounds | components/ContentContainer.tsx:306-337 | proof step: the connection loop's invariant holds at the start and at the end yields the reconciled state |
| ContentContainer.EdgesRenamedBounds | components/ContentContainer.tsx:279-291 | proof step: the edge-renaming loop's invariant holds at the start and at the end yields the merged edges and counter |
| ContentContainer.EdgesRenamedStep | components/ContentContainer.tsx:279-291 | one iteration keeps the invariant, renaming an edge inside the new content and skipping any other |
| ContentContainer.Container.constructor | components/ContentContainer.tsx:109-119 | a new container is in the initial state |
| ContentContainer.Container.GenerateNewNodeId | components/ContentContainer.tsx:125-128 | the id is the prefix, the incremented counter, `_` and a fresh suffix; the counter goes up by one and nothing else changes |
| ContentContainer.Container.AddBatch | components/ContentContainer.tsx:181 | the data sets change exactly as the all-or-nothing batch add says |
| ContentContainer.Container.DetailBatch | components/ContentContainer.tsx:169-180 | the loop builds exactly the detail nodes and edges, advancing the counter once per detail |
| ContentContainer.Container.Elaborate | components/ContentContainer.tsx:143-193 | the container ends in the state the detail action specifies |
| ContentContainer.Container.ElaborateSelected | components/ContentContainer.tsx:150-186 | the same, for a selected node that exists |
| ContentContainer.Container.AddDetails | components/ContentContainer.tsx:169-186 | adding a reply's details ends in the specified state |
| ContentContainer.Container.Explain | components/ContentContainer.tsx:523-579 | the container ends in the state the explanation action specifies |
| ContentContainer.Container.ExplainSelected | components/ContentContainer.tsx:537-572 | the same, for a selected node that exists |
| ContentContainer.Container.AddFromChat | components/ContentContainer.tsx:580-644 | the container and the result end as the chat action specifies |
| ContentContainer.Container.AddChatNode | components/ContentContainer.tsx:599-642 | adding the chat node ends as specified |
| ContentContainer.Container.LinkChatNode | components/ContentContainer.tsx:609-628 | linking the chat node to its parent ends as specified |
| ContentContainer.Container.ConnectorBatch | components/ContentContainer.tsx:391-398 | the loop builds exactly the connector edges, advancing the counter once per target |
| ContentContainer.Container.LinkConnector | components/ContentContainer.tsx:391-419 | adding the connector edges ends as specified |
| ContentContainer.Container.AddConnector | components/ContentContainer.tsx:354-427 | the container and the result end as the connector action specifies |
| ContentContainer.Container.Freeze | components/ContentContainer.tsx:733-744 | the container and the result end as the freeze toggle specifies |
| ContentContainer.Container.IsFrozenNode | components/ContentContainer.tsx:745-749 | the answer is whether the node exists and is fixed on the x axis |
| ContentContainer.Container.DescribeMissing | components/ContentContainer.tsx:750-802 | the container and the count end as the description action specifies |
| ContentContainer.Container.DescribeEach | components/ContentContainer.tsx:773-788 | the loop updates exactly the descriptions and count the specification gives |
| ContentContainer.Container.DescribeOne | components/ContentContainer.tsx:774-787 | a description is filled, with the trimmed reply, exactly when the reply is non-blank |
| ContentContainer.Container.Enhance | components/ContentContainer.tsx:803-843 | the container and the result end as the enhancement specifies |
| ContentContainer.Container.EnhanceWith | components/ContentContainer.tsx:812-842 | the same, for a node that was found |
| ContentContainer.Container.Click | components/ContentContainer.tsx:1262-1281 | the selection changes as the click handling specifies |
| ContentContainer.Container.ExpandBatch | components/ContentContainer.tsx:698-711 | the loop builds exactly the parent's sub-nodes and edges, advancing the counter once per item |
| ContentContainer.Container.ExpandOne | components/ContentContainer.tsx:692-717 | one parent's expansion ends as specified |
| ContentContainer.Container.AddExpansion | components/ContentContainer.tsx:712-713 | adding one parent's batch ends as specified |
| ContentContainer.Container.ExpandEach | components/ContentContainer.tsx:691-718 | the loop over parents ends in the specified state with the specified count |
| ContentContainer.Container.Expand | components/ContentContainer.tsx:645-732 | the container and the result end as the expansion specifies |
| ContentContainer.Container.NormalizeEach | components/ContentContainer.tsx:993-998 | the loop normalizes the nodes and advances the counter as specified |
| ContentContainer.Container.InstallSets | components/ContentContainer.tsx:1054 | installing the data sets ends as specified |
| ContentContainer.Container.Load | components/ContentContainer.tsx:921-1057 | the container ends in the state the load specifies |
| ContentContainer.Container.Request | components/ContentContainer.tsx:964-1056 | a map generated from a reply ends as specified |
| ContentContainer.Container.Preload | components/ContentContainer.tsx:940-962 | a preloaded map ends as specified |
| ContentContainer.Container.Generate | components/ContentContainer.tsx:983-1056 | a parsed reply is installed as specified |
| ContentContainer.Container.RenameNodes | components/ContentContainer.tsx:246-276 | the loop builds exactly the merged nodes and the id map, advancing the counter once per node |
| ContentContainer.Container.RenameEdges | components/ContentContainer.tsx:279-291 | the loop builds exactly the merged edges, advancing the counter once per kept edge |
| ContentContainer.Container.RenameEdge | components/ContentContainer.tsx:283-288 | one merged edge gets a fresh id and its renamed ends |
| ContentContainer.Container.ConnectOne | components/ContentContainer.tsx:307-336 | one connection attempt ends as specified |
| ContentContainer.Container.ConnectTops | components/ContentContainer.tsx:306-337 | the connection loop ends in the specified state |
| ContentContainer.Container.MergeData | components/ContentContainer.tsx:237-351 | merging a parsed reply ends as specified |
| ContentContainer.Container.AddAndTieIn | components/ContentContainer.tsx:293-351 | adding the merged content and tying it in ends as specified |
| ContentContainer.Container.Merge | components/ContentContainer.tsx:209-352 | the container and the result end as the merge specifies |
| ChatPanel.CloseFrom | components/ChatPanel.tsx:79 | the lazy `(.*?)` group ends at the first `**` after its start, crossing no line terminator |
| ChatPanel.FindFrom | components/ChatPanel.tsx:79-80 | a match found from a position starts at an opening `**` at or after it and ends at the first closing `**` of its line |
| ChatPanel.FindFromLeftmost | components/ChatPanel.tsx:79-80 | the search finds the leftmost match: any matching position at or after the start means a match no later than it |
| ChatPanel.EntityIsLazy | components/ChatPanel.tsx:79 | a matched entity holds no `**` and no line terminator |
| ChatPanel.SegmentsFromWellSplit | components/ChatPanel.tsx:79-93 | plain pieces are never empty and entities never hold `**` or a line break |
| ChatPanel.Before | components/ChatPanel.tsx:81 | the text before a match becomes one plain piece only when it is non-empty |
| ChatPanel.SegmentsFromStep | components/ChatPanel.tsx:79-92 | from a match, the pieces are the text before it, the entity, and the pieces after the closing `**` |
| ChatPanel.RenderAppend | components/ChatPanel.tsx:78-95 | showing two runs of pieces shows their texts one after the other |
| ChatPanel.RenderSegmentsFrom | components/ChatPanel.tsx:78-95 | the pieces from any position, shown with entities wrapped back in `**`, give back the text from that position |
| ChatPanel.RenderRest | components/ChatPanel.tsx:94 | without a further match the rest of the text is one plain piece, or none when empty |
| ChatPanel.RenderStep | components/ChatPanel.tsx:80-92 | one match step preserves the text: what comes before, the wrapped entity and what follows |
| ChatPanel.RenderPieces | components/ChatPanel.tsx:81-82 | the plain piece and the wrapped entity show exactly their part of the text |
| ChatPanel.SliceAround | components/ChatPanel.tsx:80-92 | the text from a position splits around a match into before, `**entity**` and after |
| ChatPanel.RenderSegments | components/ChatPanel.tsx:78-95 | splitting a message loses and adds nothing: the pieces give back the message |
| ChatPanel.OnMap | components/ChatPanel.tsx:83-84 | an entity is on the map exactly when some node label equals it ignoring case |
| ChatPanel.EntityKeyInjective | components/ChatPanel.tsx:71-82 | the key `<index>_<entity>` determines both the message index and the entity |
| ChatPanel.KeyUnderscore | components/ChatPanel.tsx:71-82 | the first `_` of a key comes right after the message index |
| ChatPanel.ClassifyAll | components/ChatPanel.tsx:80-93 | one shown part per piece |
| ChatPanel.ClassifyAllAt | components/ChatPanel.tsx:80-93 | each part is its piece classified on its own |
| ChatPanel.ClassifyAppend | components/ChatPanel.tsx:80-93 | classifying two runs of pieces is classifying each |
| ChatPanel.PartsShowSegments | components/ChatPanel.tsx:78-95 | each part is plain text exactly for a plain piece, an entity already on the map exactly for a marked piece whose text matches a label ignoring case, and otherwise a new entity marked added exactly when its key was clicked |
| ChatPanel.RenderMessage | components/ChatPanel.tsx:78-95 | the loop produces exactly the classified pieces of the message |
| ChatPanel.RenderParts | components/ChatPanel.tsx:79-94 | the loop over the matches, with the trailing text, produces exactly the classified pieces |
| ChatPanel.Advance | components/ChatPanel.tsx:80-91 | one iteration moves past the match and keeps the loop invariant |
| ChatPanel.RenderMatch | components/ChatPanel.tsx:81-90 | one match contributes the classified text before it and the classified entity |
| ChatPanel.RenderedStep | components/ChatPanel.tsx:80-91 | the parts so far plus one match's parts, followed by the rest, are still the whole message's parts |
| ChatPanel.EntityClicks.constructor | components/ChatPanel.tsx:70-76 | no entity has been clicked at first |
| ChatPanel.EntityClicks.Click | components/ChatPanel.tsx:70-76 | a click on an entity already clicked in that message, or while loading, does nothing; otherwise it asks to add the entity with the message as context and records its key |
| Session.Without | App.tsx:418-419 | removing an id drops every copy of it and keeps every other id |
| Session.WithoutAbsent | App.tsx:418-419 | removing an id that is not chosen changes nothing |
| Session.WithoutDistinct | App.tsx:418-419 | removing keeps the chosen ids free of duplicates |
| Session.Toggle | App.tsx:416-424 | toggling an id chooses it exactly when it was not chosen and leaves every other id as it was |
| Session.ToggleTwice | App.tsx:416-424 | toggling twice restores the same set of chosen ids, and the same list when the id was not chosen |
| Session.WithoutSnoc | App.tsx:418-421 | removing an id just added gives the list without it |
| Session.ToggleDistinct | App.tsx:416-424 | toggling keeps the chosen ids free of duplicates |
| Session.CountWithCoordsPositive | App.tsx:814-823 | some node counts towards the centroid exactly when some node has both coordinates |
| Session.CentroidDefined | App.tsx:823 | a position exists exactly when some node has both coordinates |
| Session.CoordlessIgnored | App.tsx:815-816 | a node without both coordinates changes neither the sums, the count nor the centroid |
| Session.Centroid | App.tsx:814-823 | the loop computes the mean position of the nodes with coordinates, and none when there are none |
| Session.ConnectionSession.constructor | App.tsx:141-142 | the app starts outside connection mode with nothing chosen or selected |
| Session.ConnectionSession.NodeSelected | App.tsx:401-414 | in connection mode a selection is ignored; otherwise the node becomes selected with its label, if it has one |
| Session.ConnectionSession.NodeToggled | App.tsx:416-424 | a click in connection mode toggles the node among the chosen ones and changes nothing else |
| Session.ConnectionSession.ProcessConnection | App.tsx:781-849 | processing always leaves connection mode with nothing chosen; it asks for a connector, labelled and titled by the reply and placed at the centroid, exactly when at least two nodes were chosen and the reply gives a label |
| Session.ConnectionSession.ToggleConnectionMode | App.tsx:852-868 | entering the mode clears the choice and the selection; leaving it with two or more chosen nodes processes the connection and asks for a connector with the reply's label and title, otherwise just clears the choice |
| Session.Back | App.tsx:639-642 | a card's back is its description when that is non-blank and differs from the label once trimmed, and otherwise the stock text ending in the label; it is never blank and never the front |
| Session.StockNotBlank | App.tsx:641 | the stock back text is not blank |
| Session.EscapeCsv | App.tsx:644-646 | escaping never shortens a field |
| Session.CsvSnoc | App.tsx:649-651 | the CSV of one more card is the CSV so far followed by that card's row |
| Session.CsvContent | App.tsx:648-651 | the loop builds exactly one quoted, escaped row per card |
| Session.ReadEscaped | App.tsx:644-646 | reading a quoted field back undoes the doubling of quotes |
| Session.ReadRowOf | App.tsx:650 | a written row reads back as its card |
| Session.CsvRoundTrip | App.tsx:644-651 | reading the CSV back gives exactly the cards written, in order |
| Session.OccurrencesAppend | App.tsx:650 | newlines of a concatenation add up |
| Session.EscapeKeepsNewlines | App.tsx:644-646 | escaping adds no newline |
| Session.CsvLineCount | App.tsx:649-651 | cards without newlines give one line per card |
| Session.SubmitSource | App.tsx:239-261 | nothing is submitted while busy; a transcript is used exactly when a file is loaded with content and the trimmed input is its name; otherwise non-blank input is submitted, trimmed, as a URL |
| Session.GenerateButton | App.tsx:897-935 | the button is disabled while anything is busy; otherwise it is enabled exactly in transcript mode, or in URL mode with a valid URL; its caption shows loading and transcript mode |
| Session.EnabledButtonSubmits | App.tsx:897-935 | whenever the button is enabled, pressing it submits a source |

## Left out

- The Gemini client (`lib/textGeneration.ts`) and the prompt texts (`lib/prompts.ts`) are not part of this model. A reply is a parameter that is either text or an error.
- `JSON.parse` itself is a parameter. The model covers the text handed to it and what the application does with its result.
- The random UUID behind node ids is an oracle, `uuid: nat -> Suffix`, read at an increasing draw counter. Its randomness, and so how likely two suffixes are to collide, is not modelled.
- vis-network is not modelled:
  - network construction, options and `setOptions`;
  - highlight colours, `focus`, `fit` and `getPositions`;
  - physics and the timed re-freeze;
  - spinners and error rendering.
- The data set's `add` is all-or-nothing here. If any id is already present, or repeats within the batch, nothing is added. The library's behaviour when a batch repeats an id within itself is not modelled.
- ExpandMap.ExpandOpKeeps: the reported total counts the sub-nodes built for each successful reply, as the source does. When their ids are fresh it equals the number added (`ExpandMap.ExpandStepAttaches`). A batch the data set refuses is still counted.
- Historical timeline layout: the x/y coordinates that pin dated nodes on a timeline are not modelled, because they are floating-point (components/ContentContainer.tsx:1024-1049). The date parsing and the ordering of nodes are modelled.
- Session.Centroid: the centroid's coordinates are real numbers, with no floating-point rounding. The model states only which nodes contribute and when a position exists.
- Node coordinates are optional reals. Node weights (`value`) are integers.
- Unbounded integers stand for JavaScript numbers in `parseInt` and in the id counter, so precision loss above 2^53 is not modelled.
- JavaScript dates are modelled as day numbers. The `Date(y, m, d)` month overflow and the rule that years 0 to 99 mean 1900 to 1999 are modelled. Time zones and times of day are not.
- Parse.Preview: lengths and cut points count characters (code points), whereas JavaScript's `length` and `substring` count UTF-16 code units. A character outside the Basic Multilingual Plane (an emoji, say) counts once here and twice there: a 199-character reply holding two emoji has a JavaScript length of 201, so the source cuts it and the model shows it whole.
- ExpandMap.ExpandLabel: the title and label length tests count characters, not UTF-16 code units, so they differ from the source on text outside the Basic Multilingual Plane: a 48-character title holding two emoji has a JavaScript length of 50 and is not used by the source, but is used by the model. ExpandMap.ExpandLabelReplaces inherits the difference.
- LoadMap.InitialLabel: the same character-versus-UTF-16-code-unit difference applies to its title and label length tests.
- MergeContent.MergePrefix: a merged node that comes without an id gets the prefix `merge_undefined_` in the source, because the template string prints the missing value. The model reads the missing id as empty and gives `merge__`. Either prefix ends in `_`, and the counter and random suffix still make the id.
- Strings.ToLower handles ASCII letters only. Unicode case mapping beyond ASCII is not modelled, so case-insensitive comparisons of non-ASCII labels are weaker than in the browser.
- The node field `label` is called `caption` in the model, because `label` is a keyword of the language. Edges carry only id, endpoints, label and whether they are dashed. The `arrows`, `smooth`, `color` and `font` fields are presentation and are left out.
- A node without a label gets "Node " followed by its id, and the model uses the id as the application holds it.
- `captureAndDownloadImage`, the JSZip archive and `triggerDownload`, Blob creation and the FileReader uploads are not modelled. They are file and DOM I/O. The model stops at the Markdown text, the file name and the CSV text.
- The flashcard file name and the chat input handlers (`handleSend`, the Enter key) are not modelled. They are I/O and UI wiring around the modelled rules.
- The textual map context sent with chat questions (`getMapContextForChat`) and the theme list are prompt text and are not modelled. The label list the chat panel receives is modelled.
- `getDetailsForNodeIds` is a parameter. The connection session receives the node details it would return.
- `validateYoutubeUrl` is an opaque predicate, given to the generate-button rule as a boolean.
- Async scheduling, React state batching, effects and timers are not modelled. Each operation runs to completion as one step, and the busy flags act only as guards on starting one.
- The connector node is added by `ContentContainer.Container.AddConnector`. `Session.ConnectionSession.ProcessConnection` returns the request it would pass. Making that call is React wiring between components.
- Pure UI files are not modelled: the options panel, including its sub-node count input, the user guide, toasts and the chat panel's drag code.
- Some things the source does not check are left as the source has them:
  - edges that come with a loaded or preloaded map are installed without checking that their endpoints exist;
  - connector edges point at whatever ids were selected;
  - when a node is added from chat, the parent lookup sees the node just added.
