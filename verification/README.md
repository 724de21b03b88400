# muni: document trees out and back, and the states in the database

`muni` is a document platform. This project models the code that turns document
trees into Word, Markdown and Hangul text and back, and the state machines that
the server keeps in its database, and proves what each promises.

The model has the form of the code. What is made of expressions and recursion is a
function; what steps through a slice, an array or a node tree is a method with
loops, fields or objects, proved equal to a function about which the lemmas speak.
A database step (one transaction, or one guarded statement) is a function on the
state, with runs as sequences of such steps.

## What is modelled

- **Tables.** `TablePlacement` places cells with the search that resumes after the
  previous cell and the one that restarts at column 0. `DocxTable` writes the
  continuation cells and reads them back; `TableBuilding`, `TableText` and
  `TableReading` are the loops, with an occupancy set, grid rows and cell objects.
  `TableRoundTrip` and `TableConservation` say what comes back, `TableConverse`
  exactly when everything does. `ColumnWidths` shares out the page over exact reals.
- **Lists.** `ListRebuilding` groups a stream of paragraphs recursively;
  `ListGrouping` tells its result without it, exactly;
  `ListStacks` builds online with a stack; `ListNodes`, `ListNodeChanges` and
  `ListStackObject` do so on objects, the open lists being references into the tree
  already handed out. `ListFlattening` is the exporter; `ListRoundTrip` and
  `ListConverse` say exactly when lists come back.
- **Markdown.** `MarkdownSyntax` and `MarkdownBlocks` hold the printer and the
  parser, `MarkdownGrammar` and `MarkdownAlignment` the forms of line and table that
  they read; `MarkdownParser` and `MarkdownWriter` are their loops. `MarkdownColumns`
  says what indentation changes for the parser, `MarkdownRoundTrip` which documents
  are well formed; `MarkdownReadBack`, `MarkdownTheorem` and `MarkdownDocument` prove
  that an exported document imports back, `MarkdownConverse` and
  `MarkdownListExactly` that nothing less than those conditions will do for a list.
  `MarkdownInline` is the inline half, read back in `MarkdownInlineBack`,
  `MarkdownInlineTags` and `MarkdownRuns`, and exactly so for unmarked text in
  `MarkdownPlainText`. `MarkdownLimits` puts both halves together.
- **Shared editing.** `CollabLog` is the stored log with its snapshots,
  `CollabProtocol` the clients around it, `CollabRoom` what they hear of each other in
  the room and who is up to date, `CollabSeed` who is asked to fill an empty document.
- **Review.** `ApprovalLine` builds a line of approvers; `Approvals` has every step
  that touches a document under review; `ApprovalInvariant` says what every run
  keeps, `ApprovalOutcome` what decisions come to and who approves a line,
  `ApprovalDocuments` what is left of the documents;
  `ApprovalDesk` has the transactions statement by statement.
- **Filing and history.** `Folders`, `ArchiveNames` and `Revisions`.
- **Hangul text.** `HwpText`, `HwpPositions` and `HwpFields`.
- **Styles.** `StyleMerge`.

## Where the code does less than it says

- A printed list does not always come back as the same list
  (`MarkdownListExactly.ListExactly` says exactly when). A bullet whose first line is
  a row of dashes is read as a rule; a first line that looks like a task makes one; a
  list whose first two lines are a table by the parser's whole test, counts of cells
  included, is read as that; a number of ten digits is not seen. A task's lines are
  indented by six columns and trimmed by two, so that after its first block every
  paragraph, heading or code turns into code (`MarkdownLimits.TasksExactly`), and code
  or a list that comes first is shifted or takes in what follows.
- A paragraph survives exactly when its line starts no other block
  (`MarkdownLimits.ParagraphExactly`).
- `==` and `~~` are not escaped. Unmarked text comes back exactly when neither is
  followed by a next copy of itself around something that does not start with a space
  (`MarkdownPlainText.PlainTextExactly`): "a == b" does, "a ==b== c" does not.
- A cell of a Word table loses its rowspan when a row has a gap or an overlap before
  its continuation, and rows are numbered anew after one that starts no cell:
  `TableConverse.ReadsBackExactly` says exactly when all comes back,
  `TableConservation.GapLosesRowspan` shows a table that does not.
- A silent code between two characters of a Hangul piece shifts every later one
  (`HwpPositions.ExactUnlessDrifting` says exactly when).
- Reading a snapshot and the log in two queries can miss updates
  (`CollabProtocol.TwoReadsMiss`); `CollabProtocol.TornLoadExactly` says exactly when
  it does, and that it never does while the snapshot's marker stands still.
- A broadcast goes to the room of a document, whatever generation those in it have.
  A restore commits before it closes the room, and a client reads its generation
  before it enters: an update of the old state can reach a client of the new one, who
  can write it there (`CollabProtocol.StaleBroadcastSpreads` is such a run).
  `CollabProtocol.PureExactly` says in which runs nothing is mixed;
  `CollabProtocol.OrderlyRunsArePure` that it takes somebody who enters beside another
  generation, or sends from outside the room.
- A client's state is read before it enters the room. What is appended and broadcast in
  between it never hears (`CollabRoom.LateEntryMisses`); it is up to date exactly when
  there is nothing of the kind (`CollabRoom.EntersUpToDate`), and then stays so.
- Exactly one client is to fill an empty document. One whose empty state was read before
  the first update, and who enters after it, is asked as well
  (`CollabSeed.LateLoaderIsAskedToo`, `CollabSeed.SecondIsLate`); until something is
  written there is only one (`CollabSeed.OneSeeds`), unless generations meet in the room
  (`CollabSeed.MeetingAsksAgain`).
- Restoring a revision changes a document under review
  (`ApprovalInvariant.RestoringThaws`), and offboarding may leave a line waiting for
  its own requester, who may not decide (`ApprovalInvariant.OffboardingMayStrand` says
  exactly when).
- The cycle check of a folder move and the move itself are two statements: two moves
  checked together close a circle exactly when each folder goes into the other's
  branch (`Folders.SplitMovesCloseACycle`).

## Model

| member | source | states |
|---|---|---|
| TablePlacement.FreeColumn | internal/docx/table.go:41-43 | the search for a column ends, at the first one from its start that no earlier cell covers |
| TablePlacement.SearchesAgree | internal/httpapi/render.go:890-922 | for every table, overlapping cells included, searching from column 0 places every cell where searching on from the previous one does |
| TablePlacement.EveryCellIsPlaced | internal/docx/table.go:34-66 | every cell of every table is placed once, in order and in its own row, with its content, its colspan of at least one and its rowspan cut to the table |
| TablePlacement.PlacementsAreLaid | internal/docx/table.go:30-75 | for every table, cells stand in reading order inside the table, and none starts on a square an earlier one covers |
| TableBuilding.SortByColumn | internal/docx/table.go:82-88 | the swaps in place leave the insertion sort of the row |
| TableBuilding.Layout | internal/docx/table.go:20-80 | the nested loops give, row by row, the parts of the cells that reach the row in column order, and as many columns as the farthest cell reaches, none without a cell |
| TableText.TableGrid | internal/httpapi/render.go:878-934 | a rectangle as wide as Word's grid, no cell reaching past it and one reaching it, each cell's text where the cell is placed and blanks everywhere else |
| TableReading.ImportTable | internal/docx/import_blocks.go:608-690 | the objects built, rows and raised rowspans, are what reading the file cell by cell gives; no row is empty |
| TableRoundTrip.GridRowIs | internal/docx/table.go:55-79 | a row of the grid has strictly increasing columns and holds exactly the parts of the cells that reach it |
| TableRoundTrip.TiledTableReadsBack | internal/docx/import_blocks.go:608-690 | a table whose cells tile a rectangle, every row starting one, comes back from Word with the same cells in the same order and rows, colspan and rowspan |
| TableRoundTrip.RegularTableReadsBack | internal/docx/import_blocks.go:608-690 | so does every table whose grid has no gap or overlap and whose rows that start no cell are its last, whatever its right edge |
| TableConservation.EveryCellComesBack | internal/docx/import_blocks.go:608-690 | for every table at all, no cell is lost, doubled or moved past another, and each keeps its colspan |
| TableConservation.GapLosesRowspan | internal/docx/import_blocks.go:642-647 | one table that fails the condition of the row below: a continuation to the right of a gap is looked up in the wrong column, and its cell comes back one row tall |
| TableConverse.ReadsBackExactly | internal/docx/import_blocks.go:608-690 | for every table at all, reading back what was written gives the same cells, places and spans if and only if no row of the grid has a gap or an overlap and the rows that start no cell are the last ones |
| TableConverse.RowHasNoGap | internal/docx/import_blocks.go:642-647 | a row in which every continuation makes some cell taller, and none taller than it was, is read column by column where it stands |
| ColumnWidths.Measure | internal/docx/table.go:96-123 | the loops give each column the width of the definition that `FirstCellMeasures` is about |
| ColumnWidths.FirstCellMeasures | internal/docx/table.go:97-123 | row by row from the left, the first cell with a positive width for a column gives the column that width |
| ColumnWidths.MeanIsKept | internal/docx/table.go:142-150 | columns nobody measured get the mean of the others, which stays the mean of all |
| ColumnWidths.RoundedIs | internal/docx/table.go:153-157 | a column gets its share of the page cut to whole twips, or 240 where that is less |
| ColumnWidths.ColumnWidths | internal/docx/table.go:92-167 | unmeasured, an even split that sums exactly; measured, every width is at least 240 and the sum is exact if and only if the last column can take the drift, the excess otherwise being positive and at most 240 for each clamped column |
| ColumnWidths.RoundingExcess | internal/docx/table.go:151-158 | the rounded shares exceed the exact ones by at most 240 for each clamped column |
| ListRebuilding.BuildListsLoop | internal/docx/import_blocks.go:536-558 | the index loop groups as the recursive definition does |
| ListRebuilding.BuildOneList | internal/docx/import_blocks.go:560-592 | one item a paragraph at the list's level, with what is deeper rebuilt inside it down to depth 8 |
| ListRebuilding.EveryParagraphOnce | internal/docx/import_blocks.go:536-592 | for any stream of levels, kinds and list ids, the rebuilt lists hold every paragraph once and in order |
| ListGrouping.GroupedExactly | internal/docx/import_blocks.go:536-592 | for any stream, depth and lists: the lists are what the stream is rebuilt into if and only if they hold its paragraphs in order, all items of each list have the level, kind and list id of its first, what hangs in an item is deeper, and between neighbours the level falls or else the kind or list id changes; only the ninth level takes in deeper paragraphs as items |
| ListStacks.AddKeepsSpine | internal/hangul/lists.go:30-54 | whatever is added, each open list has an item and is the last child of the last item of the one below |
| ListStacks.OpenIncreases | internal/hangul/lists.go:31-37 | the open levels strictly increase and the paragraph's own level is the last |
| ListStacks.OneMore | internal/docx/import_blocks.go:536-592 | rebuilding a stream and one paragraph more is the stack's step on the rebuilt lists |
| ListStacks.StackBuildsTheSame | internal/hangul/lists.go:30-54 | for any stream of bullets and numbers with one list id and levels 0 to 8, the stack builds what the recursive grouping builds |
| ListNodeChanges.AddChanges | internal/hangul/lists.go:38-52 | a step gives exactly one node already in the tree one more child, or puts a list at the end, and keeps every node in one place |
| ListNodes.HeldDenotes | internal/hangul/lists.go:16-20 | when each node holds what the tree says, walking the nodes finds the tree |
| ListStackObject.ListStack.Close | internal/hangul/lists.go:23-25 | no list is open afterwards |
| ListStackObject.ListStack.CloseDeeper | internal/hangul/lists.go:31-37 | what is left open is a prefix, its last list may take the paragraph and none above could |
| ListStackObject.ListStack.Hang | internal/hangul/lists.go:38-52 | the writes: which node gets which child, and that no other node changes |
| ListStackObject.ListStack.Add | internal/hangul/lists.go:30-54 | the objects after the call are the lists after the step, and only a list opened at the top is put out |
| ListStackObject.ReadLists | internal/hangul/lists.go:30-54 | walking the objects put out by a whole run finds the recursively grouped lists |
| ListFlattening.Builder.NewList | internal/docx/export.go:342-351 | a list id that no paragraph written so far carries, at the first level |
| ListFlattening.Builder.List | internal/docx/export.go:518-538 | appends the flattened list and takes the ids it needs |
| ListFlattening.Builder.ListItem | internal/docx/export.go:540-585 | appends the item's paragraph and then its nested lists, one of another kind under an id of its own |
| ListRoundTrip.SmoothIsFaithful | internal/docx/import_blocks.go:560-592 | a stream of one id that never deepens by two levels is rebuilt into items with at most one nested list, of the same kind, within nine levels |
| ListRoundTrip.ItemsComeBack | internal/docx/export.go:540-585 | the items of a list of one kind throughout, at most nine levels deep, are rebuilt from their flattened form |
| ListRoundTrip.FaithfulComesBack | internal/docx/export.go:518-585 | adjacent lists of that shape come back from Word |
| ListConverse.AListForEachId | internal/docx/import_blocks.go:544-554 | a rebuilt stream has at least one top list for every list id that stands at the first level |
| ListConverse.ComeBackExactly | internal/docx/export.go:518-585 | lists come back from Word if and only if each has one kind throughout, at most nine levels, at most one list inside an item, and items |
| MarkdownSyntax.TrimIndentLoop | internal/httpapi/import_markdown.go:539-555 | the loop trims what the definition trims |
| MarkdownSyntax.TrimIndentUndoes | internal/httpapi/import_markdown.go:539-555 | indenting a line by some width is undone by trimming that width |
| MarkdownSyntax.SplitTableRowLoop | internal/httpapi/import_markdown.go:577-607 | the loop splits a row as the definition does, escaped pipes included |
| MarkdownGrammar.HeadingForms | internal/httpapi/import_markdown.go:197-221 | a line is a heading if and only if it is up to three spaces, one to six hashes, and nothing or white space and a text; those are its level and text |
| MarkdownGrammar.ClosingHashes | internal/httpapi/import_markdown.go:213-220 | a last run of hashes is dropped behind a space, and kept behind anything else |
| MarkdownGrammar.RuleForms | internal/httpapi/import_markdown.go:237-249 | a line is a rule if and only if it is three or more of one of `-`, `*` and `_` with only spaces between |
| MarkdownGrammar.UnderlineForms | internal/httpapi/import_markdown.go:223-235 | a line underlines a heading of the first level if and only if it is equals signs alone, of the second if two dashes or more |
| MarkdownGrammar.FenceForms | internal/httpapi/import_markdown.go:160-177 | a line opens a block of code if and only if it is up to three spaces and three backticks or tildes, whatever follows |
| MarkdownGrammar.ClosingFence | internal/httpapi/import_markdown.go:192-195 | a line closes a block of code if and only if it is three or more of the block's own marker |
| MarkdownGrammar.ItemForms | internal/httpapi/import_markdown.go:373-421 | a line starts an item if and only if it is no rule and up to eight blanks, a bullet or one to nine digits with a dot or a parenthesis, a blank, and the content |
| MarkdownGrammar.NumberForms | internal/httpapi/import_markdown.go:395-421 | the number, delimiter, indents and content read from such a line, whatever the blanks are |
| MarkdownGrammar.TaskForms | internal/httpapi/import_markdown.go:511-522 | an item is a task if and only if it starts with brackets around a space or an x of either case, and which it is |
| MarkdownAlignment.DelimiterForms | internal/httpapi/import_markdown.go:557-573 | a cell belongs to a delimiter row if and only if, trimmed, it is dashes with a colon at neither, either or both ends |
| MarkdownAlignment.TableIsRead | internal/httpapi/import_markdown.go:609-662 | every table read is a rectangle as wide as its delimiter row: a column is centred by colons at both ends, to the right by one at the right end, else plain; short rows are filled, long ones cut |
| MarkdownBlocks.ParseBlock | internal/httpapi/import_markdown.go:78-132 | whatever sub-parser accepts takes at least one line and at most all of them |
| MarkdownParser.ParseFencedCode | internal/httpapi/import_markdown.go:136-158 | the lines up to the closing fence, and how many were taken |
| MarkdownParser.ParseIndentedCode | internal/httpapi/import_markdown.go:296-328 | the indented lines, inner blank ones kept and trailing ones left |
| MarkdownParser.ParseMarkdownParagraph | internal/httpapi/import_markdown.go:330-371 | the loop finds the paragraph, or the heading underlined by its last line |
| MarkdownParser.ParseMarkdownTable | internal/httpapi/import_markdown.go:609-662 | the loop finds the rows, alignments and cells |
| MarkdownParser.ItemBody | internal/httpapi/import_markdown.go:441-475 | the loop finds the body of an item, each line trimmed by the item's own indent |
| MarkdownParser.ParseMarkdownList | internal/httpapi/import_markdown.go:425-509 | the loop finds the items, the list's kind and its start |
| MarkdownParser.ParseBlockquote | internal/httpapi/import_markdown.go:256-280 | the quoted lines without their markers, parsed one level deeper |
| MarkdownParser.ParseMarkdownBlocks | internal/httpapi/import_markdown.go:70-134 | the main loop gives the blocks of the definition, and ends |
| MarkdownWriting.MarkdownWriter.WriteBlock | internal/httpapi/render.go:544-605 | appends the block's printed lines to the builder |
| MarkdownWriting.MarkdownWriter.WriteItem | internal/httpapi/render.go:626-643 | appends the marker and the item's lines, indented by the marker's width unless blank |
| MarkdownWriting.MarkdownWriter.WriteTable | internal/httpapi/render.go:645-670 | appends the padded rows and the delimiter row |
| MarkdownReadBack.SplitRowLine | internal/httpapi/import_markdown.go:577-607 | splitting a printed row gives its cells still padded, also those ending in a backslash or a pipe |
| MarkdownReadBack.TableBack | internal/httpapi/render.go:645-670 | a printed table of trimmed one-line cells reads back as the same rectangle, at any column and whatever follows |
| MarkdownReadBack.CodeBack | internal/httpapi/render.go:585-591 | printed code without a closing fence in it reads back at the margin, and behind a task's marker when its lines are empty |
| MarkdownReadBack.HeadingBack | internal/httpapi/render.go:555-560 | a printed heading reads back, behind a marker too |
| MarkdownReadBack.ScanParagraphBack | internal/httpapi/import_markdown.go:330-371 | a paragraph of several lines is found whole, its later lines at any column |
| MarkdownTheorem.ScanBodyBack | internal/httpapi/import_markdown.go:441-475 | the re-indentation of an item's lines is undone as far as the item's own content indent, and what was printed beyond it stays |
| MarkdownTheorem.ListBack | internal/httpapi/render.go:607-643 | a printed list reads back as the same list, nested content included, at the margin, behind a marker or in a task |
| MarkdownConverse.ContentConverse | internal/httpapi/import_markdown.go:441-475 | content whose later lines stand too far right comes back only if it hangs: no text after the first block, no code but empty, no list first that takes in what follows |
| MarkdownListExactly.ListExactly | internal/httpapi/import_markdown.go:425-509 | a printed list of well-formed items comes back if and only if its numbers stay below ten digits, its first two lines are no table, no item's line turns into a rule or a task, and what a task holds may stand four columns too far right; asked of the reader is only that it notices a task marker missing, as muni's does |
| MarkdownListExactly.ScanCount | internal/httpapi/import_markdown.go:425-475 | as many items are found as were printed only if each keeps its marker: a rule ends the list, a number of ten digits sinks with all after it into the item before |
| MarkdownTheorem.QuoteBack | internal/httpapi/import_markdown.go:256-280 | a printed quote reads back as the same quote, nested content included, at any column |
| MarkdownTheorem.BlocksBack | internal/httpapi/import_markdown.go:70-134 | a run of printed blocks reads back where it stands, if each fits there |
| MarkdownDocument.TrimNewlinesIsTheStringForm | internal/httpapi/render.go:626-635 | cutting trailing newlines off the nested text is dropping its trailing empty lines |
| MarkdownDocument.ExportImportsBack | internal/httpapi/import_markdown.go:12-34 | an exported document imports back as the same block tree: lists, tasks, quotes, code, headings, tables and paragraphs, up to the parser's depth, under the conditions that `ListExactly` and `ParagraphExactly` show to be needed |
| MarkdownLimits.MuniMarkdownRoundTrip | internal/httpapi/import_markdown.go:12-34 | the same for muni's own inline content, printed and parsed by muni: that each paragraph, heading and cell reads back is proved, not asked |
| MarkdownLimits.MuniListsExactly | internal/httpapi/import_markdown.go:425-509 | the same, both ways, for lists of muni's own inline content, a link that looks like a task included |
| MarkdownLimits.TasksExactly | internal/httpapi/render.go:565-576 | a task list whose items begin with a paragraph comes back if and only if its first two lines are no table and no later block of an item is a paragraph, a heading or code |
| MarkdownLimits.ParagraphExactly | internal/httpapi/import_markdown.go:282-294 | a one-line paragraph comes back if and only if its line starts no block of another kind |
| MarkdownInline.FindRunes | internal/httpapi/import_inline.go:258-269 | the loop finds the first unescaped occurrence |
| MarkdownInline.TakeTurn | internal/httpapi/import_inline.go:57-155 | every turn leaves strictly less text, and recursion is on shorter text only, the tag branch included |
| MarkdownInline.ParseWithMarks | internal/httpapi/import_inline.go:51-157 | the index loop with its buffer gives the nodes of the definition |
| MarkdownInline.MergeInlineText | internal/httpapi/import_inline.go:459-475 | the loop merges neighbours with equal marks |
| MarkdownInlineBack.PlainBack | internal/httpapi/render.go:731-734 | escaping is undone for any text in which no `~` or `=` is doubled, no `<` stands before a letter and no newline stands at all |
| MarkdownPlainText.PlainTextExactly | internal/httpapi/render.go:731-734 | unmarked text on one line, no `<` before a letter, comes back if and only if no `~~` and no `==` is followed by a next copy of itself around something that does not start with a space |
| MarkdownInlineTags.UnderlineTurn | internal/httpapi/import_inline.go:427-455 | a printed underlined run is taken as one tag around its own text |
| MarkdownInlineTags.LinkTurn | internal/httpapi/import_inline.go:276-300 | a printed link is taken as one, its caption up to the bracket that was not escaped, its address as it stands |
| MarkdownRuns.BreakBack | internal/httpapi/import_inline.go:70-90 | a printed hard break ends the text before it, which keeps its last character unless that is a space or a backslash |
| MarkdownRuns.RunsReadBack | internal/httpapi/import_inline.go:207-244 | printed runs of calm text, plain, bold, italic, struck, highlighted, underlined or linked, and hard breaks between them, come back in order with equal neighbours merged |
| MarkdownRuns.NormalRunsReadBack | internal/httpapi/render.go:679-734 | a merged sequence of such runs and breaks comes back as it was |
| CollabLog.Tables.LoadCollabState | internal/httpapi/collab_state.go:38-72 | the loop gives the snapshot, the updates after it, the last number and the bytes |
| CollabLog.Tables.StoreCollabSnapshot | internal/httpapi/collab_state.go:78-93 | an earlier marker never replaces a later one, and then the covered prefix goes |
| CollabLog.Tables.RestoreRevision | internal/httpapi/documents.go:607-625 | whoever loads the new generation, or any other, finds nothing in it, and no number is given out twice |
| CollabLog.LoadGives | internal/httpapi/collab_state.go:38-72 | what a load holds, and how far it reaches, by membership in the tables |
| CollabLog.LaterMarkerStays | internal/httpapi/collab_state.go:79-88 | of two snapshots of a generation the one with the later marker stays in whichever order they are stored |
| CollabProtocol.StepKeeps | internal/httpapi/collaboration.go:106-142 | every step of reading a generation, loading, entering and leaving the room, editing, appending, broadcasting, storing a snapshot, deleting its prefix, committing a restore and closing the room keeps the log complete; what it does to those in the room is `CollabRoom.BroadcastReaches` and `RoomHears` |
| CollabProtocol.EveryLoadIsComplete | internal/httpapi/collab_state.go:74-93 | in every run of racing, stale and late clients and restores, a load of the current generation holds every update persisted in it |
| CollabProtocol.CompactionLosesNothing | internal/httpapi/collab_state.go:88-92 | deleting the prefix leaves what a load holds, and no covered row |
| CollabProtocol.PureExactly | internal/realtime/hub.go:98-116 | a run keeps the generations apart, in tables, clients and loads, at every moment, if and only if no update in it is broadcast into a room that holds a client of another |
| CollabProtocol.PureLoads | internal/httpapi/collab_state.go:38-72 | in such a run a load of the current generation holds all its updates and only those |
| CollabProtocol.OrderlyRunsArePure | internal/httpapi/documents.go:607-633 | it is such a run when nobody enters beside another generation, as between the commit of a restore and the closing of the room, and nobody sends from outside |
| CollabProtocol.MixedRoomMixes | internal/httpapi/collaboration.go:117-127 | whenever somebody did enter so, three steps of a client that may write mix what the other holds, and one more what everyone loads |
| CollabProtocol.TornLoadExactly | internal/httpapi/collab_state.go:44-55 | a state read in two queries, with any steps but a restore between them, is complete if and only if every row above the marker read first that was deleted in between was in the snapshot read first; it is whenever the marker stands still |
| CollabProtocol.TwoReadsMiss | internal/httpapi/collab_state.go:44-55 | one log where reading in two queries misses an update that both states around it hold |
| CollabProtocol.StaleBroadcastSpreads | internal/httpapi/documents.go:607-633 | a run in which a client enters between the commit of a restore and the closing of the room ends with an update of the old state in what everyone loads of the new |
| CollabRoom.BroadcastReaches | internal/realtime/hub.go:98-116 | a broadcast gives its update to everyone else in the room and changes nothing and nobody else |
| CollabRoom.RoomHears | internal/httpapi/collaboration.go:53-127 | in every run whoever has entered holds everything it was sent at first and every update broadcast while it was in the room |
| CollabRoom.EntersUpToDate | internal/httpapi/collaboration.go:38-63 | a client that enters holds, or will be sent, everything persisted if and only if each update appended since its state was read is still to be broadcast or held already |
| CollabRoom.StaysUpToDate | internal/httpapi/collaboration.go:106-142 | and from then on it does whatever anyone does, as long as it stays in the room |
| CollabRoom.LateEntryMisses | internal/httpapi/collaboration.go:44-62 | an update appended and broadcast between the reading of a client's state and its entering is in the log and in nothing that client holds |
| CollabRoom.WhoWrites | internal/httpapi/collaboration.go:117-142 | the tables change only by an update of at most a megabyte from a client that may write, a snapshot that was asked for and merges what was sent, its prefix going, or a restore |
| CollabRoom.AskedToCompact | internal/httpapi/collab_state.go:34-36 | a snapshot is asked of who may write and was sent four hundred updates or four megabytes, and of nobody else |
| CollabRoom.CompactionRuns | internal/httpapi/collab_state.go:78-93 | what it then sends is stored unless a later one was, exactly the rows it was sent or older go, and it is asked no more |
| CollabRoom.CompactsOnce | internal/httpapi/collaboration.go:128-141 | a connection whose prefix has gone never has a snapshot stored again |
| CollabSeed.OneSeeds | internal/realtime/hub.go:47-74 | in every run in which nobody enters or writes beside another generation, of those in the room at most one was asked to fill the document, until something is written |
| CollabSeed.MeetingAsksAgain | internal/realtime/hub.go:60-78 | whenever somebody of another generation is asked or writes beside the one asked, the next of that one's generation is asked too |
| CollabSeed.AskedExactly | internal/httpapi/collaboration.go:68-71 | who enters is asked if and only if it may write, was sent an empty state, and nobody else who is still there has the claim for its generation |
| CollabSeed.SecondIsLate | internal/httpapi/collaboration.go:44-71 | whoever is asked although something is written had its state read before that |
| CollabSeed.LateLoaderIsAskedToo | internal/realtime/hub.go:68-81 | whenever the one asked writes between the reading of another's state and its entering, that one is asked too |
| ApprovalLine.BuildApprovalLine | internal/httpapi/approval_line.go:31-101 | a line is refused if and only if it is longer than ten, its final position lies outside it, someone is missing, may not read or stands in it twice, or the requester does where that is forbidden |
| ApprovalLine.BuiltLineEnds | internal/httpapi/approval_line.go:85-99 | every line built has exactly one final step and distinct approvers |
| ApprovalInvariant.DecidedLine | internal/httpapi/workflow.go:174-212 | a decision keeps the line in turn, and the outcome is what its places tell |
| ApprovalInvariant.DecideFine | internal/httpapi/workflow.go:171-222 | a decision keeps a request sound, in a line or by votes, and cancels none |
| ApprovalInvariant.TurnIsOpen | internal/httpapi/workflow.go:139-158 | a pending line always has someone to wait for, who has not decided yet |
| ApprovalInvariant.HandedOver | internal/httpapi/admin_offboard.go:213-261 | offboarding keeps approvers distinct and in turn, and cancels exactly the emptied line |
| ApprovalInvariant.StepKeeps | internal/httpapi/workflow.go:45-86 | every step of submitting, deciding, offboarding, saving, trashing, archiving, purging and restoring keeps the invariant |
| ApprovalInvariant.UnderReviewExactly | internal/httpapi/workflow.go:45-86 | in every run a document is under review if and only if one request of it, and only one, is pending, and is then in review and not in the trash |
| ApprovalInvariant.LinesAreTold | internal/httpapi/workflow.go:174-212 | in every run nobody approved while a lower place was waiting, a pending line has a waiting place, an approved one an approval and no rejection, and approvers are distinct |
| ApprovalInvariant.OffboardingDecidesNothing | internal/httpapi/admin_offboard.go:236-261 | offboarding approves and rejects nothing; a request is left or cancelled, its document left or a draft again |
| ApprovalInvariant.DecisionReachesDocument | internal/httpapi/workflow.go:222-235 | a document is published exactly when its request is approved, a draft again exactly when it is rejected, and no other document or request changes |
| ApprovalInvariant.FrozenUnderReview | internal/httpapi/documents.go:384-386 | no step but restoring a revision changes the content or revision of a document under review, trashes or removes it |
| ApprovalInvariant.RestoringThaws | internal/httpapi/documents.go:607-625 | restoring a revision does |
| ApprovalInvariant.LineGoesOn | internal/httpapi/workflow.go:139-162 | somebody may decide a pending line if and only if requesters may or it does not wait for its own |
| ApprovalInvariant.OffboardingMayStrand | internal/httpapi/admin_offboard.go:213-261 | after offboarding a line can be decided if and only if requesters may decide or it does not wait for its requester: for the recipient where the turn was handed over, for the next in line where it was skipped, for the same as before otherwise |
| ApprovalOutcome.WhoDecides | internal/httpapi/workflow.go:139-170 | a decision is recorded if and only if the request is pending, it is that person's turn or there is no line and they may review, they have not decided, and they are not the requester or requesters may; otherwise nothing changes |
| ApprovalOutcome.DecisionInLine | internal/httpapi/workflow.go:174-212 | an approval settles a line if and only if the place whose turn it is is final or nobody waits behind it; until then no other place changes, and then the waiting ones are skipped |
| ApprovalOutcome.DecisionByVotes | internal/httpapi/workflow.go:213-222 | without a line a request is approved by the vote with which as many different people have approved as are required, rejected by the first rejection |
| ApprovalOutcome.ApprovedByItsFirst | internal/httpapi/workflow.go:62-83 | after any steps but offboarding and purging, a line submitted with its final place at f has been decided by its first people in turn, is approved if and only if its first f have approved, rejected with the first rejection, and else open to the next one alone |
| ApprovalOutcome.OffboardingHandsOver | internal/httpapi/admin_offboard.go:213-261 | a waiting place of someone who leaves is skipped if the recipient stands in that line, and is the recipient's otherwise; no other place changes, and a line with nobody left is cancelled |
| ApprovalDocuments.WritesAreRevisions | internal/httpapi/documents.go:384-428 | outside a review a save, through the editor or MCP, does to a document what it does to its history in `Revisions`, and nothing else but set the status |
| ApprovalDocuments.TrashSteps | internal/httpapi/admin_overview.go:318-338 | what each step into, out of and through the trash does, and that a review stops it, for one document or its whole workspace |
| ApprovalDocuments.SubmissionsOpen | internal/httpapi/workflow.go:45-86 | a submission opens a pending, undecided request of its document exactly when that is open and not under review |
| ApprovalDesk.TwoStatements | internal/httpapi/admin_offboard.go:218-238 | skipping doubled places and then reassigning the rest is handing each waiting place over once |
| ApprovalDesk.Desk.SubmitApproval | internal/httpapi/workflow.go:45-86 | the transaction is the submit step, places inserted one by one |
| ApprovalDesk.Desk.DecideApproval | internal/httpapi/workflow.go:163-237 | the transaction is the decide step, whose outcome `ApprovalOutcome` states |
| ApprovalDesk.Desk.OffboardApprovals | internal/httpapi/admin_offboard.go:213-261 | the three statements are the offboarding step |
| ApprovalDesk.Desk.ArchiveDocuments | internal/httpapi/admin_overview.go:318-338 | all documents of the workspace go to the trash, or none if one is under review |
| Folders.FolderIsDescendant | internal/httpapi/folders.go:159-171 | the upward walk ends and finds the ancestor if and only if there is one |
| Folders.MoveStaysAcyclic | internal/httpapi/folders.go:45-89 | an allowed move closes no circle |
| Folders.EveryRunKeeps | internal/httpapi/folders.go:45-129 | in every run parents are acyclic, live folders hang under live ones of their workspace, and every document is in a live folder of its workspace or at the top |
| Folders.MovesGo | internal/httpapi/folders.go:45-89 | a live folder goes where it is sent, and nothing else changes, if and only if that is the top or a live folder of its workspace outside its own branch |
| Folders.DocumentsGo | internal/httpapi/folders.go:195-238 | where a document is after a move: in the live folder named, at the top of another workspace when none was named, or where it was |
| Folders.DeletingLosesNoDocument | internal/httpapi/folders.go:111-129 | deleting a folder keeps every document, trashed ones too, and moves only the folder's own to where it was |
| Folders.DeletingTakesOneFolder | internal/httpapi/folders.go:122-129 | the deleted folder is not live afterwards, every other is as live as before, and only those right inside it hang elsewhere |
| Folders.DeletingKeepsAncestry | internal/httpapi/folders.go:122-126 | every other live folder stays under exactly the folders it was under |
| Folders.SplitMovesCloseACycle | internal/httpapi/folders.go:61-85 | two moves that are both allowed before either is made leave a forest if and only if not each folder goes into the branch of the other |
| Folders.Shelves.UpdateFolder | internal/httpapi/folders.go:45-89 | the guards and the update are the move step |
| Folders.Shelves.DeleteFolder | internal/httpapi/folders.go:111-129 | the transaction is the delete step |
| Folders.Shelves.MoveDocument | internal/httpapi/folders.go:195-238 | a document goes to a live folder of the target workspace, or to its top |
| ArchiveNames.NumbersApart | internal/httpapi/workspace_export.go:351-357 | different suffixes never give names equal up to case |
| ArchiveNames.FreeNumber | internal/httpapi/workspace_export.go:288-290 | the search for a suffix ends, at the smallest free one from 2 on |
| ArchiveNames.UniqueEntryName | internal/httpapi/workspace_export.go:342-358 | the name as it stands or with the smallest free suffix, equal up to case to none in use, and claimed |
| ArchiveNames.EntryNames | internal/httpapi/workspace_export.go:163-184 | each document is named in its directory by its title, or by the smallest number not given before; no two names are equal up to case, and none is the index's |
| ArchiveNames.FolderPaths.Resolve | internal/httpapi/workspace_export.go:267-294 | every path given is new up to case, also when a circle gives a folder its path again |
| ArchiveNames.PathsOf | internal/httpapi/workspace_export.go:247-297 | for every folder set, cyclic ones included, each listed folder gets a directory, no two equal up to case and none the index's; without a circle and within the depth searched, each lies in its parent's directory under its own name or that with a number |
| Revisions.EveryRunIsSound | internal/httpapi/documents.go:165-171 | in every run the current revision has a row with the document's content, and no number exceeds it |
| Revisions.NumbersAreFresh | internal/httpapi/documents.go:415-425 | a new revision never meets a row of its number |
| Revisions.NoLostUpdate | internal/httpapi/documents.go:387-389 | of two saves made on the same revision only one goes through |
| Revisions.LateSavesAreRefused | internal/httpapi/documents.go:387-428 | whatever happens between opening a document and saving it, the save goes through if and only if no step in between made a new revision; otherwise it changes nothing, however far behind it is, and so through MCP |
| Revisions.StepAdvances | internal/httpapi/documents.go:408-428 | exactly which steps make a new revision, and that no other changes the content |
| Revisions.RestoringAddsOnly | internal/httpapi/documents.go:607-625 | restoring brings old content back as a new revision and changes no row |
| Revisions.RetentionKeeps | internal/httpapi/retention.go:136-155 | the newest K revisions, named ones and the current one stay as they were, so at least K do or all there are |
| Revisions.RetentionExactly | internal/httpapi/retention.go:141-155 | a revision is removed if and only if it is older than the cutoff, at least K newer ones exist, its name is missing or blank, and it is not current |
| Revisions.CleaningTwice | internal/httpapi/retention.go:141-155 | a second pass under the same policy and time removes nothing |
| Revisions.MilderKeepsMore | internal/httpapi/retention.go:141-155 | a milder policy keeps all that a stricter one keeps |
| Revisions.Store.UpdateDocument | internal/httpapi/documents.go:376-428 | a save goes through if and only if it names no revision or the current one, and otherwise changes nothing |
| Revisions.Store.RestoreRevision | internal/httpapi/documents.go:607-625 | the transaction is the restore step |
| HwpText.ReadParagraphText | internal/hwp/text.go:77-159 | over the bytes, the loop gives the pieces, marks and fields of the tokens |
| HwpText.CloseField | internal/hwp/text.go:102-108 | the search closes the last field still open |
| HwpPositions.ReadIsKept | internal/hwp/text.go:96-153 | all pieces together are the characters kept, each the file's own at its place, in rising order |
| HwpPositions.PiecesApart | internal/hwp/text.go:70-75 | in every paragraph a piece ends before the next begins |
| HwpPositions.ExactUnlessDrifting | internal/hwp/text.go:150-152 | a piece's characters stand at its start plus their offset if and only if no silent code stands between two of them |
| HwpPositions.LettersWhereTheyStand | internal/hwp/text.go:45-52 | without the codes 0 and 25 to 29 every letter of every piece is the file's own at start plus offset |
| HwpPositions.SilentCodeShifts | internal/hwp/text.go:150-152 | one silent code between two letters is enough to shift the second |
| HwpFields.FieldsAreBrackets | internal/hwp/text.go:98-109 | the search from the end of the list finds, for every begin mark, the end mark that balances it |
| HwpFields.FieldsNest | internal/hwp/text.go:59-66 | of two fields the later lies inside the earlier, or begins after it, or the earlier has no end |
| StyleMerge.MergeProperties | internal/docx/import_blocks.go:230-293 | the result is made of new nodes and no own or style node is changed |
| StyleMerge.InheritanceRule | internal/docx/import_blocks.go:217-229 | for every name the own element speaks first and then the nearest style, attribute by attribute; a bare element ends inheritance; a skipped name is own or absent |
| StyleMerge.AttributeIsOf | internal/docx/import_blocks.go:230-293 | of a merged element that is not bare, an attribute the node sets is the node's, any other comes from the first style of the chain that sets it, and is missing if none does |
| StyleMerge.MergeInSteps | internal/docx/import_blocks.go:283-287 | merging with one chain and then with another is merging with both |
| StyleMerge.ChainFollows | internal/docx/import_blocks.go:202-210 | the chain goes from a style to the one it is based on and so on, nearest first, and ends at the sixteenth or where no style follows, also when styles refer to each other in a circle |
| StyleMerge.StyledParagraphProperties | internal/docx/import_blocks.go:194-215 | a paragraph's properties over those of its style's chain, without the reference and the numbering |
| StyleMerge.ParagraphInherits | internal/docx/import_blocks.go:194-215 | an attribute a paragraph does not set itself comes from the fewest steps up at which a style sets it, and is missing when no style below the sixteenth does |

## Left out

- HTTP, JSON, SQL transport, sockets, zip and XML reading, mail, sign-in, the frontend, `internal/richdoc`, `internal/settings` and `internal/hwpx`: `internal/richdoc` is not part of this model, and of `internal/realtime` only who is in a room, hears what and has the claim to fill a document.
- Permissions, sessions, notifications and audit rows; a step takes as input whether its caller may take it.
- Steps the handlers make in several statements without a transaction are one step here: the role check before a submit, the turn read before a decision, the two statements of an MCP update, the cycle check before a folder move, entering a room, claiming the empty document and being sent the state there, storing an update and giving that claim up.
- The Markdown title line, footnotes, tables of contents, images carried as data and code marks; table cells with several blocks or with spans in Markdown; fence languages outside ASCII.
- Lists whose items have blocks other than a paragraph and lists in Word, and the start number of a list there; task lists in Word.
- The kind of a list id in Word's numbering part: a paragraph carries its kind directly.
- The dropping of blank paragraphs after a table in `groupBlocks`.
- Column widths in floating point, header rows, shading and vertical alignment of cells, and the fallback width of one cell in Word.
- UTF-16 decoding of a Hangul piece: characters are code units, as positions are; positions are unbounded here, 32 bits in the code.
- Lower-casing that changes the length of a name, and the cleaning of names before they are joined.
- The skip list of character styles (`styledRunProperties`): a skip list is any set here; a node's prefix stands for its namespace.
- Retention of the trash, of audit rows and of AI records; the history of a document that is deleted.
- MarkdownRuns.RunsReadBack: asks that no `~` or `=` is doubled in a run and no `<` stands before a letter there; the exact condition is proved for unmarked text alone. Runs in superscript, subscript or two marks other than bold and italic are printed without one of them or read in another order.
- MarkdownLimits.ParagraphExactly: both directions for one line; a paragraph of several lines is proved to come back when none of its lines starts something else.
