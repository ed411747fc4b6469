# LibreDB Studio, modelled in Dafny

A model of the client-side logic of LibreDB Studio whose correctness depends on order, on
escaping or on conservation, with proofs for all inputs, all runs or all interleavings.
`dafny verify dfyconfig.toml` checks the whole project.

## What is modelled

- **Runs of a query tab** (`QueryRuns`, `QueryTheorems`, `QueryPlans`, `QueryResults`, `QueryHook`). `useQueryExecution` keeps
  one map of cancellable runs and one of last runs, and every closure writes through a guard.
  The protocol is a state machine whose steps are the code between two awaits: start, reply
  (also after an abort), early return, failure, settlement, background plan, cancel, refused
  explain, unmount. What a tab should show is read off the trace by a separate ledger. The
  class `QueryExecution` holds the mutable maps; each method is proved to be one step.
- **Latest wins elsewhere** (`Catalog`, `Metadata`, `Monitoring`, `MonitoringLoading`,
  `MonitoringHook`, `TimeSeries`, `Layout`, `SchemaCanvas`, `SeedPoll`). The catalog reads guarded by a generation counter, the
  provider declaration guarded by a text key, the monitoring history owned by a numbered
  selection, the diagram layout guarded by cancel flags and a completed signature, and the
  bounded poll for pending connections. Where effects matter, renders and passive effects are
  separate steps, so an answer may land between.
- **Inline edits** (`InlineEdits`, `UpdateText`, `InlineApply`, `InlineFilter`, `InlineHook`). Pending changes are
  a last-write-wins map; the compiler emits UPDATE text with positional parameters; a reader of
  that text gives it a meaning on tables; running all statements is one overlay.
- **SQL text** (`SqlText`, `ObjectPath`, `Strings`, `Sequences`). Literal escapes, identifier quotes and bind forms of all
  dialects, each with the reader that undoes it.
- **CSV import** (`Csv`, `ImportSql`, `ImportScript`, `ImportFile`). The hand-written scanner against a printer that
  quotes as in section 2 of RFC 4180, and the batching emitter against a reader of values and of
  whole scripts.
- **Prose** (`RichText`, `Prose`, `ProseTheorems`, `ProseLines`, `ProseText`). The inline scanner with an unparser, and the line
  machine for fences, lists and headings against a declarative structure.
- **Aggregations** (`Grouping`, `Charts`, `Pivot`), over mathematical reals.
- **The create-table form** (`CreateTable`, `CreateTableClicks`, `CreateTableSql`, `CreateTableWords`, `CreateTableReader`):
  a form state machine, an emitter, and a reader of the emitted statement.

## What the proofs found

- Applying edits is only right for a detected key that tells the editable rows apart
  (`AppliesAsIntendedIff`, `ResultAppliesAsIntendedIff`). `customer_id` passes the detection, and an edit then spreads to every
  row that shares the value (`SharedKeySpreads`); a NULL key is compared as the text `null` and its
  row is missed (`NullKeyIsMissed`).
- A layout answer that lands after a render but before that render's effects puts the previous
  graph's nodes on screen, and for a cosmetic rebuild nothing replaces them
  (`EarlyAnswerLeavesOldNodes`); they follow it exactly when that never happens
  (`NodesFollowTheGraphIff`).
- The monitoring `loading` flag is right exactly as long as no aborted request settles while
  another is wanted and no connection is taken away while one is (`LoadingAlwaysRightIff`); a
  refresh during a request breaks it (`LoadingDropsEarly`). A late reply of an earlier visit
  empties the chart (`ChartSurvivesIff`), and `data` is of the visit on screen exactly while the
  chart is not empty (`DataIsThisVisitsIff`).
- `useProviderMetadata` leaves `isLoading` on exactly when a connection is deselected with a read
  unanswered (`LoadingOutlivesTheSelectionIff`). It shows a declaration and an error at once exactly
  when a refusal and then an answer land for one read (`BothStandIff`), which takes a return to a
  connection that is still being read (`NeverBothWithoutReturning`, `BothMayStand`).
- The plan beside a run's rows is that run's exactly when its own has landed
  (`PlanMatchesRowsIff`); until then it is another statement's.
- A cell edited while Apply awaits its requests is cleared at the end without having been submitted
  (`LostIff`).
- With a column filter on, an edit goes to another row unless the filters keep the edited row and
  all rows above it (`EditHitsItsRowIff`).
- A header cell of an imported file goes into the statement unquoted, so into an existing object the
  script is right exactly where every mapped header is a plain word (`HeadersDecide`); the address
  itself is quoted as it must be, but for a reserved word that is left bare (`ScriptReadsBackIff`).
- A CSV cell with a line feed, or with blanks at its ends, does not survive the import reader even
  when quoted (`RoundTripIff`).
- The prose regular expressions do not match a carriage return, so in a text with CRLF line ends a
  bullet or a heading that has text is read as a paragraph; the model follows the code.
- The create-table sentinel is also a legal column name (`__auto_increment__`), so the theorem
  speaks of every word of a column but its name.

## Model

| member | source | states |
|---|---|---|
| QueryTheorems.TabsDoNotInterfere | src/hooks/use-query-execution.ts:319-341 | For every trace, deleting all events of the other tabs leaves a trace the hook can produce, after which this tab, its owner, its runs in every phase and the run its Cancel would stop are the same |
| QueryTheorems.TabUnaffectedByOthers | src/hooks/use-query-execution.ts:319-341 | In particular the tab on screen, its slot and its last run are equal in both traces |
| QueryTheorems.Reachable | src/hooks/use-query-execution.ts:319-341 | The invariant of every interleaving: a slot is held exactly while the tab's last run is not finalised, by that run; every other unfinished run of the tab is already aborted; flags and paging as in the rows below |
| QueryTheorems.CancelStopsTheLatest | src/hooks/use-query-execution.ts:844-868 | In every reachable state Cancel aborts the tab's latest run if that one is unfinished, changes nothing else, and afterwards every unfinished run of the tab is aborted |
| QueryTheorems.OnlyTheOwnerWrites | src/hooks/use-query-execution.ts:335-341 | Whatever changes a tab is a start or a refusal on that tab, or a write by the run last started on it, however late the reply or plan |
| QueryTheorems.SupersededMeans | src/hooks/use-query-execution.ts:335 | While run ids are unique, the id comparison of `isSuperseded` says exactly that another run was started on the tab since, or that the hook was unmounted |
| QueryTheorems.OwnersMoveForward | src/hooks/use-query-execution.ts:319-323 | The run that owns a tab at a later point of a trace was not started before the run that owned it earlier |
| QueryTheorems.WritesMoveForward | src/hooks/use-query-execution.ts:335-341 | Two writes that change one tab, in the order they happen, are by runs in the order they were started: neither rows nor plan go back to an older run |
| QueryTheorems.SilentAfterUnmount | src/hooks/use-query-execution.ts:186-194 | After an unmount no reply, failure or plan of a run started before it changes any tab |
| QueryTheorems.SpinnerShowsTheOwner | src/hooks/use-query-execution.ts:277-287 | The two flags are never both set and say exactly which run is awaited; while mounted that run is the tab's latest and has no reply yet |
| QueryTheorems.NoStuckSpinner | src/hooks/use-query-execution.ts:674-718 | While mounted, a tab whose runs have all finalised has neither flag set |
| QueryTheorems.PagingConserved | src/hooks/use-query-execution.ts:614-645 | A tab with a result shows the pages since the last replacing run, concatenated, each asked for at exactly the count already held; allRows and currentOffset agree with it |
| QueryTheorems.PlanLandsOnItsOwnRows | src/hooks/use-query-execution.ts:594-611 | A background plan reaches its tab only while its own run's rows are on screen, and then replaces the plan and nothing else; otherwise no tab changes |
| QueryPlans.PlanIsItsOwners | src/hooks/use-query-execution.ts:594-645 | In every reachable state a tab shows exactly the plan that landed on it last, a background plan or an explain's reply of the run that owned the tab then, or the plan it began with |
| QueryPlans.PlanMatchesRowsIff | src/hooks/use-query-execution.ts:594-645 | A tab that shows the rows of a run shows that run's plan if and only if the run's own plan has landed; until then the plan beside the rows is another run's |
| QueryPlans.NoPlanWithoutExplain | src/hooks/use-query-execution.ts:593 | The own plan of a run that sends no EXPLAIN, such as a further page, never lands |
| QueryResults.TabIsAsTold | src/hooks/use-query-execution.ts:498-645 | In every reachable state the whole tab is what the answers that landed on it tell: a result only while the last of them was rows, announcing a further page as that answer did and counting as the server did on a first page and as its rows on a further one; rows and offset of the last landed rows, kept while an explain or an approval hides them; the last landed approval until rows land |
| QueryResults.MoreIsAskedIff | src/hooks/use-query-execution.ts:873-881 | Load More is open exactly while the last answer that landed was rows with a further page announced, and then asks from exactly the count on screen |
| QueryHook.QueryExecution.constructor | src/hooks/use-query-execution.ts:186-194 | A fresh hook over tabs without results is an initial state of the protocol |
| QueryHook.QueryExecution.IsSuperseded | src/hooks/use-query-execution.ts:335 | True exactly where the protocol's guard refuses the run |
| QueryHook.QueryExecution.CommitToTab | src/hooks/use-query-execution.ts:338-341 | The guarded write: nothing at all for a superseded run, the run's own tab otherwise |
| QueryHook.QueryExecution.ExecuteQuery | src/hooks/use-query-execution.ts:264-341 | The code up to the first await is one start of the protocol, or one refusal for an explain nothing can explain |
| QueryHook.QueryExecution.HandleLoadMore | src/hooks/use-query-execution.ts:873-881 | Starts a run exactly where a connection is open and a further page is announced, at exactly the offset the tab holds; only the dangerous-statement gate of a tab that holds no rows stops it, and then nothing changes |
| QueryHook.QueryExecution.OnReply | src/hooks/use-query-execution.ts:587-645 | The code after the reply is one reply step, landing or not |
| QueryHook.QueryExecution.OnDeclined | src/hooks/use-query-execution.ts:498-541 | The two early returns, cancelled and awaiting approval, are one decline step |
| QueryHook.QueryExecution.OnFailure | src/hooks/use-query-execution.ts:674-709 | The catch block is one failure step |
| QueryHook.QueryExecution.OnSettled | src/hooks/use-query-execution.ts:710-718 | The finally block frees the slot only for the run that still owns it |
| QueryHook.QueryExecution.OnPlan | src/hooks/use-query-execution.ts:594-611 | A plan's arrival is one plan step |
| QueryHook.QueryExecution.CancelQuery | src/hooks/use-query-execution.ts:844-868 | Cancelling is one cancel step and touches no tab |
| QueryHook.QueryExecution.OnUnmount | src/hooks/use-query-execution.ts:186-194 | The cleanup loop aborts every slot's run and empties both maps: one unmount step |
| InlineEdits.PendingIsLastWrite | src/hooks/use-inline-editing.ts:30-47 | After any sequence of cell edits the list has at most one entry per cell, none whose text is its original's, and holds for each cell its last edit, unless that restores the original |
| InlineEdits.EditedAt | src/hooks/use-inline-editing.ts:31-46 | One edit changes the entry of its own cell only: it becomes the edit, or disappears where the edit restores the original |
| InlineEdits.FindKeyColumn | src/hooks/use-inline-editing.ts:53 | The first field that is `id`, or ends in `_id`, in any case; none exactly where no field is one |
| InlineEdits.IsKeyName | src/hooks/use-inline-editing.ts:53 | Character by character: the last two are i and d in either case, and an underscore is before them if anything is |
| InlineEdits.IsBareIdentifierIff | src/lib/sql/identifier.ts:83-85 | The table names Apply accepts, character by character: each dotted part begins with a letter or underscore and goes on with those, digits and dollar signs |
| UpdateText.StatementMeans | src/hooks/use-inline-editing.ts:98-132 | In every dialect the generated UPDATE text, read back by an engine with its parameters bound, says exactly: set each edited column to its stored value where the key is the row's key; placeholders number 1 to n in step with `params`, whatever cells and names hold |
| UpdateText.StatementReadsBack | src/hooks/use-inline-editing.ts:129-132 | The statement text lexes back to its table, clauses, key and operands, with nothing left over |
| UpdateText.EachColumnIsSetToItsText | src/hooks/use-inline-editing.ts:114-121 | Read back, a statement sets each edited column to NULL if and only if the text typed is empty or the four letters n, u, l, l in any case, and to that text otherwise |
| InlineApply.ApplyIsOverlay | src/hooks/use-inline-editing.ts:151-156 | Running the statements one after another equals laying all pending changes over the table at once, on every table, when the edited rows have distinct non-null keys and no change of a key collides with a later row |
| InlineApply.AppliesAsIntended | src/hooks/use-inline-editing.ts:95-156 | For edits of the grid's own cells off the key column, the table after Apply is the grid as the user sees it wherever each edited row has a non-null key no other row has |
| InlineApply.AppliesAsIntendedIff | src/hooks/use-inline-editing.ts:53 | Apply does what the grid shows for every list of edits of its cells off the key column if and only if each row with such a cell has a non-null key no other row has |
| InlineApply.ResultAppliesAsIntendedIff | src/hooks/use-inline-editing.ts:53 | Where all rows have the result's fields: if and only if there is no field but the key, or the detected `id` or `*_id` column is distinct and non-null on every row |
| InlineApply.NullKeyIsMissed | src/hooks/use-inline-editing.ts:124 | A row whose key is missing or NULL is missed by its own statement, shown by an edit of any of its cells |
| InlineApply.SharedKeySpreads | src/hooks/use-inline-editing.ts:124 | An edit of one row reaches every other row with the same key, shown by an edit of any of its cells |
| InlineApply.ReachesIffKeyTaken | src/hooks/use-inline-editing.ts:95-133 | When keys are edited too, a later row's statement reaches a row edited before it exactly when that edit took the key the later row still goes by |
| InlineFilter.EditHitsItsRowIff | src/components/ResultsGrid.tsx:195-205 | With column filters on, the statement of an edit is for the row that was edited if and only if the filters drop neither that row of the result nor any above it |
| InlineFilter.InPlaceIff | src/components/ResultsGrid.tsx:498-500 | A row on screen has its own number in the result exactly in that case |
| InlineFilter.KeepsIff | src/components/ResultsGrid.tsx:195-205 | A row stays on screen exactly where the text of every filter stands somewhere in the cell of its column, letter by letter in either case |
| InlineHook.InlineEditing.HandleCellChange | src/hooks/use-inline-editing.ts:30-47 | Keeps the list equal to the fold of all edits since it was last cleared |
| InlineHook.InlineEditing.HandleDiscardChanges | src/hooks/use-inline-editing.ts:168-170 | Clears the list and its history |
| InlineHook.InlineEditing.GroupByRow | src/hooks/use-inline-editing.ts:65-70 | The map it fills holds, per edited row, exactly that row's changes in order, and its keys in order of first edit |
| InlineHook.InlineEditing.BuildStatements | src/hooks/use-inline-editing.ts:94-133 | One statement per edited row in that order, or the TypeError of a change whose row is gone |
| InlineHook.InlineEditing.BeginApply | src/hooks/use-inline-editing.ts:49-133 | Each refusal in the order of the code and with nothing changed; else the statements it goes on to submit mean the overlay of all pending changes |
| InlineHook.InlineEditing.FinishApply | src/hooks/use-inline-editing.ts:151-158 | After the last request list and editing mode are cleared; a change not submitted is cleared with them exactly where it was made since Apply began |
| InlineHook.LostIff | src/hooks/use-inline-editing.ts:151-157 | Of the changes not submitted, those in the list that Apply clears are exactly the last real edits made during its requests |
| InlineHook.NothingLostIff | src/hooks/use-inline-editing.ts:151-157 | Nothing is lost if and only if every such edit was submitted already |
| InlineHook.InlineEditing.HandleApplyChanges | src/hooks/use-inline-editing.ts:49-166 | Both halves with no edit in between: every pending change is submitted, and list and editing mode are cleared |
| SqlText.LiteralReadsBack | src/lib/sql/values.ts:107-115 | For every value and dialect the quoted text is one literal that reads back as exactly that value, in the grammar of that dialect's escapes |
| SqlText.DialectNameReadsBack | src/lib/sql/identifier.ts:17-59 | In every dialect a quoted name reads back as exactly that name, whatever it holds, even where it spells SQL |
| SqlText.BackslashSpelling | src/lib/sql/values.ts:18-85 | A backslash is doubled in a literal for exactly MySQL, ClickHouse, OpenSearch and Couchbase |
| SqlText.QuoteSpelling | src/lib/sql/values.ts:107-115 | A quote is doubled in a literal, but for Couchbase, where a backslash goes before it |
| SqlText.NameSpelling | src/lib/sql/identifier.ts:17-59 | Backticks for MySQL and OpenSearch, brackets for SQL Server, double quotes for every other dialect |
| SqlText.PlaceholderSpelling | src/lib/sql/values.ts:155-182 | Which dialects bind by a numbered placeholder, which by a question mark, and which not at all |
| Strings.TrimIs | src/components/DataImportModal.tsx:78-84 | What trimming takes off a cell: white space at both ends, all of it and nothing else |
| Csv.ParseLine | src/components/DataImportModal.tsx:61-86 | The index loop answers exactly the cells of the reference scan |
| Csv.RowReadsBack | src/components/DataImportModal.tsx:61-86 | A row printed as in section 2 of RFC 4180 scans back as its cells, each trimmed, whatever they hold |
| Csv.FileReadsBack | src/components/DataImportModal.tsx:57-90 | A printed file of cells without line feeds parses back as its rows, trimmed, minus those printed as a blank line, for both line ends |
| Csv.RoundTripIff | src/components/DataImportModal.tsx:56-92 | The round trip holds if and only if every cell is free of line feeds and equal to its own trim and no row prints as a blank line |
| Csv.CsvRoundTrip | src/components/DataImportModal.tsx:88-91 | With a header row the header and rows are the file's; without one the rows are, and the generated column names are `column_1`, `column_2` and so on, as many as the columns and pairwise distinct |
| Csv.EmptyFileIff | src/components/DataImportModal.tsx:57-58 | A file has neither headers nor rows exactly where every line is blank |
| Csv.ParsedIsReadable | src/components/DataImportModal.tsx:57-86 | No cell of any parsed text holds a line feed or differs from its own trim |
| ImportSql.ValuesReadBack | src/components/DataImportModal.tsx:198-242 | For any cells, an engine of the dialect reads each VALUES list as exactly one token per cell in order and stops at the statement's semicolon; each is the one token that says its cell: NULL for the empty cell and the two words, TRUE or FALSE or numeric text where the cell looks like its column's type, else a literal of it |
| ImportSql.BatchesPartition | src/components/DataImportModal.tsx:213-216 | The INSERT batches are ceil(n/100), none empty, all full but the last, and concatenate to the rows in order |
| ImportSql.SampledCellsFit | src/components/DataImportModal.tsx:122-136 | Within the sample a cell of a column typed other than TEXT is empty or looks like the type, so it is never quoted for want of fitting |
| ImportSql.ColumnTypeIff | src/components/DataImportModal.tsx:122-136 | If and only if for each type, by the characters of the cells of the first hundred rows that are not empty: INTEGER where there are some and all are an optional minus and digits, else NUMERIC where all are that with an optional fraction, else BOOLEAN where all are true, false, 0 or 1 in any case, else TEXT |
| ImportSql.OneTokenSays | src/components/DataImportModal.tsx:218-235 | No two tokens say the same cell of the same type, so a quoted number or an unquoted text is told from what the code writes |
| ImportSql.EmitInserts | src/components/DataImportModal.tsx:215-240 | The batching loop emits exactly one statement per batch, in order |
| ImportScript.ScriptReadsBackIff | src/components/DataImportModal.tsx:175-243 | Whatever the cells hold, an engine reads the whole text as exactly one CREATE for a new table and one INSERT a batch, each with its table, columns and rows, if and only if there is something to say, each segment of the table's address is in quotes or needs none, there is a column, and every mapped header is a word it takes without quotes |
| ImportScript.HeadersDecide | src/components/DataImportModal.tsx:175-243 | Into an existing object of a known dialect, reserved words aside, the headers alone decide |
| ImportFile.ScriptHoldsTheFile | src/components/DataImportModal.tsx:180-243 | The script read back, in terms of the file: a CREATE of the chosen column names with the types of the sample for a new table, `imported_data` where it has no name; then one INSERT for each hundred rows, in which every row stands once, in order, each cell said by its token |
| ObjectPath.PathReadsBackIff | src/lib/query-generators.ts:141-144 | An address reads back as its own segments if and only if each is in quotes or is a word the engine takes without them |
| ObjectPath.AddressesReadBack | src/lib/query-generators.ts:75-144 | In every SQL dialect the conditional quoting is right, reserved words aside: any address reads back as its own segments |
| ObjectPath.RawReadsBackIff | src/lib/query-generators.ts:42-45 | A name written without quotes reads back as itself exactly where it is such a word, even if it holds quotes |
| ObjectPath.UnquotedIff | src/lib/query-generators.ts:56-118 | A segment goes without quotes if and only if the dialect leaves any name bare, the name is a word of it, and folding its case leaves it as it is |
| ObjectPath.QuotesSpelling | src/lib/query-generators.ts:49-118 | Which quotes each dialect's names get when they need them |
| ImportSql.GenerateImportSql | src/components/DataImportModal.tsx:180-243 | The emitter computes that text: empty without data or target, else the optional CREATE TABLE and the batches, joined |
| ImportSql.CellReadsBack | src/components/DataImportModal.tsx:218-235 | Each emitted cell is one token for a reader that knows only the dialect's grammar |
| RichText.RenderInline | src/components/rich-text.tsx:18-54 | The cursor loop produces exactly the nodes of the reference scan |
| RichText.InlineLosesNothing | src/components/rich-text.tsx:18-54 | Putting `**` and backticks back around the nodes and concatenating gives the line exactly |
| RichText.InlineWellFormed | src/components/rich-text.tsx:21-51 | No plain node is empty or contains a further match, and no markup node holds its own marker |
| RichText.NoMarkupIff | src/components/rich-text.tsx:21 | Text holds no markup, as a plain node does not, exactly where no such span starts in it |
| RichText.InlineKeys | src/components/rich-text.tsx:24-45 | Markup nodes are keyed 0, 1, 2 and so on |
| RichText.PlainNodesApart | src/components/rich-text.tsx:28-51 | No two plain nodes are neighbours |
| RichText.MatchIff | src/components/rich-text.tsx:21 | A match starts exactly where two stars are closed by the next two on the line, or a backtick by the next with something between, and is that span with its text |
| RichText.RendersFirstSpan | src/components/rich-text.tsx:24-46 | Up to the first such span the text is plain, the span is one node of its kind and text, and rendering goes on behind it |
| RichText.RendersPlain | src/components/rich-text.tsx:49-51 | All of the text is one plain node exactly where no span starts in it |
| ProseTheorems.MachineIsStructure | src/components/rich-text.tsx:227-282 | The line machine with its mutable fence and bullets reads exactly the declarative structure: each fence one body, each run of bullets one list, every other line on its own |
| ProseTheorems.ProseConserved | src/components/rich-text.tsx:227-282 | Every line outside fences, but blank ones and empty headings, appears exactly once and in order, as an item, a heading or a paragraph, and nothing inside a fence is read as prose |
| ProseTheorems.FencesConserved | src/components/rich-text.tsx:212-241 | The code blocks are the fences in order, minus empty ones and the carded statement |
| ProseTheorems.FencesHoldFencedLines | src/components/rich-text.tsx:228-241 | Together the fences hold each line between markers once, unmodified and in order; an unclosed fence runs to the end |
| ProseTheorems.ProseIsConserved | src/components/rich-text.tsx:184-284 | All of the above for the blocks of every text, with and without a carded statement |
| ProseLines.LineKindIff | src/components/rich-text.tsx:56-72 | What every line is, by its characters: a fence mark is an indent, three backticks and no further one; a bullet an indent, `-` or `*`, white space and the item; a heading an indent, one to six hashes, white space and the title; blank is white space alone; all else is a paragraph |
| ProseLines.FenceTag | src/components/rich-text.tsx:234-240 | A fence's tag is what stands behind its backticks, without white space around it and in lower case; white space alone is no tag |
| ProseText.LinesAreConserved | src/components/rich-text.tsx:184-284 | Every line of every text by its characters: outside fences each one with a character that is no white space, but a heading of nothing, is its marker around exactly one text of the blocks, in order, and nothing else is; each fenced line stands in the fences as it is |
| ProseText.FencePrintedIff | src/components/rich-text.tsx:212-225 | A fence is one code block of its joined lines and its tag, unless all of it is white space or it is, trimmed, the carded statement |
| Prose.Renderer.Push | src/components/rich-text.tsx:195-206 | A block gets the next key: block i has key i |
| Prose.Renderer.CloseList | src/components/rich-text.tsx:191-208 | Pushes the collected bullets as one list, or nothing |
| Prose.Renderer.CloseFence | src/components/rich-text.tsx:212-225 | Pushes the collected fence unless it is empty or carded, and leaves none open |
| Prose.Renderer.ReadLine | src/components/rich-text.tsx:227-276 | One turn of the loop takes the machine one step |
| Prose.RenderProse | src/components/rich-text.tsx:184-284 | The blocks are those of the line machine, keyed by position |
| Catalog.Reachable | src/hooks/use-connection-manager.ts:94-216 | The invariant of every interleaving of requests and answers, tying the hook's state to the newest request |
| Catalog.CatalogShowsTheNewest | src/hooks/use-connection-manager.ts:94-172 | The spinner is on exactly while the newest generation is a read without an answer; off, the list and the error are the answer for the connection last asked for; an error always stands beside an empty list |
| Catalog.LastRequestWins | src/hooks/use-connection-manager.ts:94-172 | Of any requests the last one decides what is on screen, whichever answers to earlier ones come before or after its own |
| Catalog.LastRequestPends | src/hooks/use-connection-manager.ts:94-98 | Until the last request is answered the screen stays as it was, spinner on |
| Catalog.DeferralClearsTheList | src/hooks/use-connection-manager.ts:192-212 | A last request on a connection that puts its scan off, and was not the last one loaded by hand, leaves nothing on screen, no error and no spinner, whatever was still on its way |
| Catalog.SupersededReadIsSilent | src/hooks/use-connection-manager.ts:138-168 | A read that is not the newest request, superseded by a read of any connection, its own included, or by a deferral, changes nothing when it settles |
| Catalog.ReadGeneration.Begin | src/hooks/use-read-generation.ts:41-44 | A new generation, newer than every earlier one |
| Catalog.ReadGeneration.IsCurrent | src/hooks/use-read-generation.ts:43 | True exactly while nothing began or superseded since |
| Catalog.ReadGeneration.Supersede | src/hooks/use-read-generation.ts:45-47 | Makes every generation handed out so far stale |
| Catalog.ConnectionCatalog.FetchSchema | src/hooks/use-connection-manager.ts:192-214 | One request step: a deferred connection supersedes without reading |
| Catalog.ConnectionCatalog.LoadObjects | src/hooks/use-connection-manager.ts:225-230 | One request step past the deferral, nothing without a connection |
| Catalog.ConnectionCatalog.OnSettled | src/hooks/use-connection-manager.ts:106-169 | One settle step for each outcome; only a current failure is reported |
| Metadata.KeysTellReadsApart | src/hooks/use-provider-metadata.ts:62 | Two reads with the same text key have the same attempt and the same connection, colons and digits in an id included |
| Metadata.Reachable | src/hooks/use-provider-metadata.ts:64-132 | The invariant of every interleaving of renders, effects, retries and answers, read off the key last asked for |
| Metadata.DeclarationIsTheConnections | src/hooks/use-provider-metadata.ts:75-130 | Once the effect of the latest render has run, a declaration on screen was answered for the selected connection on its latest attempt |
| Metadata.NeverPendingForNothing | src/hooks/use-provider-metadata.ts:28-34 | Then the spinner of a selected connection waits for a read of it, and off it leaves a declaration or a reason |
| Metadata.StaleAnswerIsSilent | src/hooks/use-provider-metadata.ts:110-131 | Once the effect has run, an answer to a pending read of another connection, or of an earlier attempt at this one, changes nothing on screen |
| Metadata.ShownIff | src/hooks/use-provider-metadata.ts:139-142 | Without a selected connection the hook returns neither declaration nor error, whatever is held; with one, what is held |
| Metadata.OutcomesDecide | src/hooks/use-provider-metadata.ts:81-131 | For every run: a declaration stands exactly where the last outcome landed for the read asked for was an answer, and is that one; an error exactly where one of them was a refusal, and is the last reason; and the spinner is on exactly while nothing has landed for it |
| Metadata.BothStandIff | src/hooks/use-provider-metadata.ts:116-131 | Declaration and error stand together if and only if, for the read asked for, a refusal landed and an answer after it was the last |
| Metadata.NeverBothWithoutReturning | src/hooks/use-provider-metadata.ts:62-76 | A reader who never asks again for a connection while a read of it is pending never sees both |
| Metadata.OldDeclarationUntilTheEffect | src/hooks/use-provider-metadata.ts:77-81 | The gap: between a render and its effect the previous connection's declaration stands in for the new one |
| Metadata.LoadingOutlivesTheSelectionIff | src/hooks/use-provider-metadata.ts:65-68 | Without a connection `isLoading` is on exactly when a read was unanswered at the deselection, and stays so whatever settles while the reader stays away |
| Metadata.ReturningReadsTwice | src/hooks/use-provider-metadata.ts:71-76 | Leaving a connection that is being read and coming back reads it twice under one key |
| Metadata.BothMayStand | src/hooks/use-provider-metadata.ts:71-131 | It is reached: from every run with a read pending, leaving and returning, a refusal and the earlier answer show declaration and error at once |
| Metadata.ProviderMetadata.OnEffects | src/hooks/use-provider-metadata.ts:64-83 | The effect is one step |
| Metadata.ProviderMetadata.OnSettled | src/hooks/use-provider-metadata.ts:116-131 | The settle handlers of one request are one step |
| SeedPoll.RunsExactlyUntilDone | src/hooks/use-connection-manager.ts:295-323 | The timer runs exactly until an unmount, a reply with nothing pending or the settling of the thirtieth request; refusals and exceptions stop nothing by themselves |
| SeedPoll.RequestsAreBounded | src/hooks/use-connection-manager.ts:299-321 | Never more than thirty requests, and never two at once |
| SeedPoll.ShowsTheLastList | src/hooks/use-connection-manager.ts:306-311 | The list is the last one answered before the unmount; an empty answer takes nothing away |
| SeedPoll.ActiveStays | src/hooks/use-connection-manager.ts:310 | A connection that is open stays; without one the first of the first list is opened, and none while there is no list |
| SeedPoll.Poll.OnTick | src/hooks/use-connection-manager.ts:301-304 | One tick step: nothing while a request is in flight |
| SeedPoll.Poll.OnSettled | src/hooks/use-connection-manager.ts:306-321 | The handlers of one answer are one settle step |
| SeedPoll.Poll.OnUnmount | src/hooks/use-connection-manager.ts:359-362 | One unmount step |
| TimeSeries.TimeSeriesBuffer.Push | src/lib/time-series-buffer.ts:17-27 | The buffer's contents grow by the sample, in place and by index arithmetic |
| TimeSeries.TimeSeriesBuffer.GetAll | src/lib/time-series-buffer.ts:29-38 | Exactly the newest maxSize samples, oldest first, across any number of wrap-arounds |
| TimeSeries.TimeSeriesBuffer.Clear | src/lib/time-series-buffer.ts:49-53 | Empties the buffer into a fresh array |
| Monitoring.Reachable | src/hooks/use-monitoring-data.ts:44-171 | The invariant of every interleaving of renders, effects, requests and replies |
| Monitoring.HistoryIsTheCurrentStreak | src/hooks/use-monitoring-data.ts:315 | The chart is exactly the newest 120 samples of the unbroken streak of replies, up to the last that landed, that were requested during the visit on screen |
| Monitoring.HistoryNeverMixes | src/hooks/use-monitoring-data.ts:148-156 | Every point on the chart was requested during this visit, of the connection on screen, late and aborted replies included |
| Monitoring.BufferHasOneOwner | src/hooks/use-monitoring-data.ts:151-155 | Every point in the buffer was requested under the buffer's owner selection |
| Monitoring.NewVisitStartsEmpty | src/hooks/use-monitoring-data.ts:44-48 | Leaving a connection empties the chart at that very render, and it stays empty until a reply requested during the new visit lands, also after returning |
| Monitoring.NoConnectionNoHistory | src/hooks/use-monitoring-data.ts:308-315 | Without a connection there is neither history nor data |
| Monitoring.OneRequestIsWanted | src/hooks/use-monitoring-data.ts:107-112 | At most one pending request is not aborted |
| Monitoring.ChartSurvivesIff | src/hooks/use-monitoring-data.ts:148-156 | A reply extends the chart exactly when it is of the visit on screen; a late reply of an earlier visit takes the buffer over and empties it |
| Monitoring.DataIsTheLastReply | src/hooks/use-monitoring-data.ts:144 | `data` is the last reply that landed, whoever asked for it |
| Monitoring.DataOutlivesItsConnection | src/hooks/use-monitoring-data.ts:309 | The gap: after a switch the previous connection's data stays on screen until the new one answers |
| Monitoring.DataIsThisVisitsIff | src/hooks/use-monitoring-data.ts:309-315 | `data` is of the visit on screen exactly when the chart is not empty |
| MonitoringLoading.LoadingRightAfterIff | src/hooks/use-monitoring-data.ts:157-170 | From a state where `loading` says whether an unaborted request is pending, it still does after a settling request if and only if that request was not aborted or no other is wanted |
| MonitoringLoading.StepIsHonestIff | src/hooks/use-monitoring-data.ts:94-190 | The same for every step: besides such a settling, only taking the connection away while a request is wanted makes the flag wrong |
| MonitoringLoading.LoadingAlwaysRightIff | src/hooks/use-monitoring-data.ts:94-190 | Over a whole run the flag is right at every point if and only if neither ever happens |
| MonitoringLoading.LoadingEnds | src/hooks/use-monitoring-data.ts:166-169 | Right or not it is never stuck: once every request has settled it is off |
| Monitoring.LoadingDropsEarly | src/hooks/use-monitoring-data.ts:166-169 | Both do happen: from any run with a wanted request, a second request and the AbortError of the first turn the flag off while the second is pending |
| MonitoringHook.MonitoringData.OnRender | src/hooks/use-monitoring-data.ts:44-48 | One render step: the selection is renumbered exactly when the id changed |
| MonitoringHook.MonitoringData.OnEffects | src/hooks/use-monitoring-data.ts:74-80 | The effects in declaration order are one step, ending in the fetch of line 182 where the connection changed |
| MonitoringHook.MonitoringData.FetchData | src/hooks/use-monitoring-data.ts:94-114 | The code up to the await is one fetch step |
| MonitoringHook.MonitoringData.OnReply | src/hooks/use-monitoring-data.ts:133-169 | The code after the reply is one reply step on the real ring buffer |
| MonitoringHook.MonitoringData.OnError | src/hooks/use-monitoring-data.ts:157-170 | Catch and finally are one failure or cancellation step |
| MonitoringHook.MonitoringData.OnUnmount | src/hooks/use-monitoring-data.ts:87-92 | One unmount step |
| Layout.Reachable | src/components/SchemaDiagram.tsx:164-262 | The invariant of every interleaving of renders, passive effects, layout answers, drags and the unmount |
| Layout.LayoutIsNeverSkipped | src/components/SchemaDiagram.tsx:210-252 | Once the effects of the latest render have run, the graph is empty, or its signature is the completed one, or exactly one uncancelled layout is pending and it is of that graph |
| Layout.SpinnerIffWanted | src/components/SchemaDiagram.tsx:202 | Then the spinner is on exactly while an uncancelled layout is pending |
| Layout.OnlyTheEffectsGraphIsApplied | src/components/SchemaDiagram.tsx:227-242 | An answer that changes anything was computed for the graph the effects last ran for, and turns its spinner off |
| Layout.TablesStandWhereLastPut | src/components/SchemaDiagram.tsx:166-171 | Every table on screen stands where the last drag of it or the last applied layout that holds it put it, by the layout's answer or else by that graph; and where nothing has, where its own graph draws it |
| Layout.PositionsSurvive | src/components/SchemaDiagram.tsx:163-171 | A remembered position outlives rebuilds: only a drag of that table or an applied layout that holds it moves it |
| Layout.NodesFollowTheGraphIff | src/components/SchemaDiagram.tsx:178-252 | Over a whole run the nodes on screen are at every point those of the current graph if and only if no layout is applied between the render of a new graph and its effects |
| Layout.EdgesFollowTheGraph | src/components/SchemaDiagram.tsx:178-185 | The edges on screen are those of the graph rendered at every point of every run, also where the nodes are not |
| Layout.StepFollowsIff | src/components/SchemaDiagram.tsx:227-238 | The same for one step: only an applied answer that is ahead of the effects replaces the current graph's nodes |
| Layout.SyncedIsTimely | src/components/SchemaDiagram.tsx:210-228 | A wanted layout is of the graph rendered exactly when the effects have run for that graph |
| Layout.EarlyAnswerLeavesOldNodes | src/components/SchemaDiagram.tsx:218-238 | The gap: an answer between a render and its effects puts the old graph's nodes back, and where the signature did not change they stay, with no layout pending and no spinner |
| Layout.Adjacency | src/components/SchemaDiagram.tsx:142-151 | Two tables are neighbours exactly when an edge joins them, either way round |
| SchemaCanvas.Canvas.OnRender | src/components/SchemaDiagram.tsx:178-185 | One render step |
| SchemaCanvas.Canvas.OnEffects | src/components/SchemaDiagram.tsx:210-252 | Cleanup and effect together are one step |
| SchemaCanvas.Canvas.RememberPositions | src/components/SchemaDiagram.tsx:235-237 | The loop remembers the last position of each node, and forgets none |
| SchemaCanvas.Canvas.OnSettled | src/components/SchemaDiagram.tsx:227-247 | The continuation of a layout is one settle step; a cancelled closure writes nothing |
| SchemaCanvas.Canvas.OnNodesChange | src/components/SchemaDiagram.tsx:273-280 | The loop over the changes is one drag step |
| SchemaCanvas.Canvas.OnUnmount | src/components/SchemaDiagram.tsx:249-251 | One unmount step |
| Charts.ComputeHistogramBins | src/components/DataCharts.tsx:317-338 | Bins that tile from the least value to the greatest in equal widths, each counting exactly the values it holds, with every index in bounds; none for no values, one where all are equal |
| Charts.OneBinEach | src/components/DataCharts.tsx:332-336 | Every value is in exactly one bin |
| Charts.CountsAddUp | src/components/DataCharts.tsx:332-336 | The counts add up to the number of values |
| Charts.IndexHolds | src/components/DataCharts.tsx:333-334 | The floor of the quotient, once clamped, is the index of the one bin that holds the value |
| Charts.AggregateData | src/components/DataCharts.tsx:341-385 | The rows untouched where no metric aggregates; else one result row per key in order of first appearance, each field measuring its own group by the last metric on it |
| Charts.GroupKeyIff | src/components/DataCharts.tsx:349-357 | A row goes by the text it shows in the grouping field, empty where it has none, in its date's bucket where the text is not empty |
| Charts.NumberIff | src/components/DataCharts.tsx:362 | A row's number is the field's, and zero where it has none |
| Charts.SumsAddUp | src/components/DataCharts.tsx:364-366 | A sum column adds up to the sum over all rows |
| Charts.GroupCountsAddUp | src/components/DataCharts.tsx:370-372 | A count column adds up to the number of rows |
| Charts.AveragesAddUp | src/components/DataCharts.tsx:367-369 | An average column, weighted by group sizes, adds up to the sum over all rows |
| Charts.MinOfMinima | src/components/DataCharts.tsx:373-375 | The least of a minimum column is the least of all values |
| Charts.MaxOfMaxima | src/components/DataCharts.tsx:376-378 | The greatest of a maximum column is the greatest of all values |
| Grouping.GroupRows | src/components/DataCharts.tsx:349-357 | The map filled row by row has exactly the rows' keys, in order of first appearance, each with its own rows in order |
| Grouping.GroupsAddUp | src/components/DataCharts.tsx:349-357 | Over any distinct keys that cover the rows, the groups' totals of any measure add up to the rows' total |
| Grouping.InItsGroup | src/components/DataCharts.tsx:349-357 | A row is in the group of its own key and in no other |
| Pivot.PivotData | src/components/PivotTable.tsx:71-108 | Null without a row field or rows; else each row key and column key once, and each cell the aggregate of exactly the rows with both keys |
| Pivot.FillCells | src/components/PivotTable.tsx:75-89 | The nested maps hold, for every pair of keys, the values of exactly the rows with both, in order |
| Pivot.InItsCell | src/components/PivotTable.tsx:78-89 | Every row is in the cell of its own keys and in no other |
| Pivot.InItsCellIff | src/components/PivotTable.tsx:78-89 | A row is in the cells of the texts it shows, `NULL` where it shows none, and in one column where no column field is chosen |
| Pivot.NumberOfIff | src/components/PivotTable.tsx:28 | What a row adds to its cell's numbers: one without a value field, nothing where the value is missing or unreadable, zero for null |
| Pivot.CountsAddUp | src/components/PivotTable.tsx:31-32 | The count grid sums to the number of rows |
| Pivot.SumsAddUp | src/components/PivotTable.tsx:33-34 | The sum grid sums to the sum of all values that are numbers |
| Pivot.Aggregate | src/components/PivotTable.tsx:27-42 | Each aggregate with its stand-in for a cell without numbers |
| CreateTable.FormStaysGood | src/components/CreateTableModal.tsx:287-316 | After any adds, removes, edits, ticks, engine switches and submissions there is a column, every type is one its dropdown lists, the sentinel sits only on a primary column of an engine with auto-increment, and names are plain identifiers |
| CreateTable.EnginesAreGood | src/components/CreateTableModal.tsx:119-258 | Every engine lists its own key type, and has auto-increment only with constraints |
| CreateTableClicks.FormIsAsTold | src/components/CreateTableModal.tsx:275-316 | After any clicks the form, told without its steps: the columns added and not removed since the engine changed or a table was created, in order, each with the name, type and key, null and unique boxes of the last click on them or of its beginning; a ticked key clears null, an unticked one takes the sentinel back to the key type |
| CreateTableClicks.WithoutAt | src/components/CreateTableModal.tsx:309-312 | A removal drops exactly its column and keeps the others in order |
| CreateTableReader.SqlReadsBack | src/components/CreateTableModal.tsx:318-369 | The statement splits back into its lines and every column's line into its words, commas and indents removed |
| CreateTableReader.SqlSaysTheForm | src/components/CreateTableModal.tsx:326-365 | After any clicks the SQL says of each column what the form shows: its type and never the sentinel, PRIMARY KEY once exactly where the key box is ticked, NOT NULL and UNIQUE exactly where ticked and not implied by the key |
| CreateTableReader.SqlSaysTheClicks | src/components/CreateTableModal.tsx:326-365 | The SQL says of each column that is still there its name, its type and its key, null and unique boxes as they were last clicked |
| CreateTableReader.FreshFormReads | src/components/CreateTableModal.tsx:119-273 | Once its table is named a new form makes a key that numbers itself, word for word as each engine spells that; on Trino a plain one that is NOT NULL |
| CreateTableReader.FreshSequenceFirst | src/components/CreateTableModal.tsx:334-368 | On DuckDB the first line creates the sequence named by table and column |
| CreateTableReader.SequencesComeFirst | src/components/CreateTableModal.tsx:334-348 | A column that draws from a sequence names it in its DEFAULT, and the line that creates that sequence comes before the table |
| CreateTableSql.GenerateSql | src/components/CreateTableModal.tsx:318-369 | The text grown qualifier by qualifier is the words of every column, joined, behind the sequences it needs |
| CreateTableSql.CreateTableModal.OnRender | src/components/CreateTableModal.tsx:287-291 | The columns are derived anew exactly when the engine changed |
| CreateTableSql.CreateTableModal.AddColumn | src/components/CreateTableModal.tsx:293-307 | Appends one nullable column of the engine's own first type, and leaves the others alone |
| CreateTableSql.CreateTableModal.RemoveColumn | src/components/CreateTableModal.tsx:309-312 | The filter drops that column alone, and never the only one |
| CreateTableSql.CreateTableModal.OnTableName | src/components/CreateTableModal.tsx:419 | The name typed, in lower case, every other character an underscore |
| CreateTableSql.CreateTableModal.UpdateColumn | src/components/CreateTableModal.tsx:314-316 | The loop puts the updates into that column and leaves every other one |
| CreateTableSql.CreateTableModal.OnName | src/components/CreateTableModal.tsx:452-454 | One rename step |
| CreateTableSql.CreateTableModal.OnType | src/components/CreateTableModal.tsx:462 | One retype step |
| CreateTableSql.CreateTableModal.OnPrimary | src/components/CreateTableModal.tsx:487-496 | One step of the key box, with what it does to the null box and the sentinel |
| CreateTableSql.CreateTableModal.OnNullable | src/components/CreateTableModal.tsx:506 | One step of the null box |
| CreateTableSql.CreateTableModal.OnUnique | src/components/CreateTableModal.tsx:515 | One step of the unique box |
| CreateTableSql.CreateTableModal.HandleCreate | src/components/CreateTableModal.tsx:371-387 | A form with an empty name is refused unchanged; else its SQL is handed over and the form reset |

## Left out

- The set of tabs is fixed: restoring and closing tabs belongs to `useTabManager`.
- `executeHandedOverStatement` (src/hooks/use-query-execution.ts:770-830) writes without the ownership guard, so it is not a step.
- Sandbox begin and rollback, toasts, history storage and schema refresh: calls without a reply the protocol reads.
- An explain run with an offset: no caller makes one.
- Load More reads the tab as of the current state; the code reads it as of the last render, so a press between a replacing reply and its render asks for a page at the old count. The same holds for the deferred-connection check of `fetchSchema`.
- QueryTheorems.PagingConserved: does not say that the pages it joins answer one statement, because the text of a statement is not part of a run; Load More sends the tab's query as it reads at that moment, so an edit in between mixes two.
- A second press of Apply before the first has finished, and an edit of the grid's rows by the results in between.
- The table name of Apply is a parameter: only the bare-identifier test on it is modelled, not the guess from tab title or FROM.
- InlineApply.AppliesAsIntendedIff: compares keys as values that are numbers, text or NULL, because what an engine coerces when it compares is its own.
- Sending the statements of Apply: that a failing statement does not stop the loop is I/O.
- `toLowerCase` and `toUpperCase` are ASCII only; no Unicode case mapping is modelled.
- ImportScript.ScriptReadsBackIff: takes the engine's quote characters from its capabilities and its reserved words as a parameter; the reader keeps the case of an unquoted word, and what folding would do to it is in `UnquotedIff` alone; a typed name of a new table is meant as its dotted parts.
- JSON import: it is a call to the JavaScript parser.
- The histogram's range labels, `toFixed`, date bucketing (a function parameter), `Number(...)` on text (the cell carries its number) and locale order (any reordering that keeps distinct keys).
- Charts.ComputeHistogramBins: needs at least one bucket, as the control offers only positive counts; real arithmetic instead of floats, so rounding at bin edges is not modelled.
- TimeSeries.TimeSeriesBuffer.constructor: needs a positive capacity; the hook passes 120. Time stamps, `getRange` and `getLast` are left out.
- `buildGraph` and `graphSignature`: a graph carries its signature; `fitView`, selection and highlighting are rendering.
- Layout.PositionsSurvive: node ids are taken to be distinct within a graph, because they are object addresses.
- The ten-second abort of the metadata read (it arrives as a refusal), the tick length of the seed poll and the first list fetch before it.
- The pivot's SQL generator, `isDangerousQuery`, statement splitting, route handlers, and everything that renders.
