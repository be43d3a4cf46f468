# Household inventory server: a verified model

This project models, in Dafny, the parts of the server of a household inventory system whose
correctness spans many operations, and proves what those parts are for:

- **Sync push with field-level merge.** Clients push mutations against the version they last saw.
  Per-field versions decide which fields of a stale mutation win and which conflict; a ledger makes
  every mutation take effect once.
- **The location forest.** Locations nest. Creating, moving and deleting them keeps the parent
  edges a forest, and two independent readers of that forest agree.
- **CSV export, import, diff and commit.** What is exported reads back as itself, a file that is
  classified without a bad row breaks no constraint of the tables, and committing what a diff found
  leaves nothing to find.
- **The rate limiter.** A bounded least-recently-used table with capped exponential back-off, and
  how it compares with one that never forgets.
- **Attachment files** under concurrent uploads, deletions and reclaim passes, and the stored form
  of **password hashes**.

The database is a value: maps of rows per table, a per-group sequence counter, tracked field
versions, the mutation ledger and the conflict log. A transaction is an all-or-nothing step.

## How the files build on each other

| files | content |
|---|---|
| Sequences, Wire, Database, Push | shared notions on sequences, values on the wire, tables, the pure specification of one push |
| Runs, MergeTheorem, PushLaws, Convergence, StockLaws, Tidy | events, runs, and the laws over all runs |
| Effects, PushEffects | what every push answers and does, decided and written out on the tables |
| Blocks | pushes to warranty blocks, which are found by item |
| Store | the push handlers, repository operations and batch loop as they run, on a class of tables, proved against the specification |
| Forest, LocationRuns, Rollup, LocationTree | upward walks and the cycle check, the forest invariant over runs, downward search and roll-up, their agreement |
| Escape, Numerals, Cells, Headers | the printer and parser of values, cells and header rows |
| Sorting, Rows, Export, Import, RoundTrip | the orders of columns, items and staged rows, the diff, whole files, and export followed by import |
| ImportCommit, ImportStore, Classify | what a commit writes, convergence of diff and patch, the commit loop, and the way from a file to its commit |
| Backoff, RateLimit | the delay loop on 64-bit durations, the limiter and its reference |
| Reclaim, ReclaimPass | the concurrent protocol, and one undisturbed pass |
| Base64, Phc | unpadded base64 and the argon2id hash string |

Runs are traces of states (`IsRun(ts, es)`): `ts[i + 1]` is what event `es[i]` makes of `ts[i]`.
Laws over runs are stated for every trace.

## Where the code does not do what one would expect

Each of these is stated exactly, with the failing input and the condition under which the property
holds.

- Deleting a location with reassignment moves items and child locations without recording field
  versions, so a stale push to `location_id` or `parent_id` of a row moved since its base version
  meets no conflict unless another change of that column was recorded since
  (`MergeTheorem.SilentMoveWitness`, `MergeTheorem.SilentMoveExact`).
- A custom field value that prints as an empty cell is skipped on import, so the item comes back
  with a difference (`RoundTrip.EmptyTextWitness`, `RoundTrip.ExportThenImport`).
- Pushes to warranty, sold-to and purchased-from blocks look tracked versions up under the id the
  client sent and record them under the row's own; a client that names the block by another id
  overwrites newer changes without a conflict (`Blocks.ForeignIdWitness`, `Blocks.AnyIdExact`).
- The back-off loop wraps around for caps above 2^62 + 1 nanoseconds and then yields tiny delays
  (`Backoff.WrapWitness`, `Backoff.ClosedFormExact`).
- The grace hour protects live attachment files exactly as long as upload delay and pass delay add
  up to less than it (`Reclaim.TooSlowWitness`, `Reclaim.GraceExact`).

## Model

| member | source | states |
|---|---|---|
| `Wire.SnapshotDecodes` | server/internal/storage/push_commit.go:416-437 | the JSON snapshot of a server value in a conflict row decodes back to that value |
| `Effects.DecodeExact` | server/internal/storage/push_commit.go:325-404 | a submitted JSON value decodes to a column value exactly when it stands for it (null for the empty one), and what is left out is the empty one |
| `Effects.AdjustPosts` | server/internal/storage/stock_adjustments.go:93-143 | an adjustment adds one stock row with delta, reason, note and resulting quantity in their columns, moves the item to the next version with the wrapped sum, and changes nothing else |
| `PushEffects.Screened` | server/internal/storage/push_commit.go:72-221 | what is answered before any row is looked at: which fault gives which error, and a replay its skip |
| `PushEffects.CreateExact` | server/internal/storage/push_commit.go:603-658 | a pushed create of any kind, decided on the tables: refused with _entity for a used id, with the field in the way otherwise, an error for an undecodable value or a broken constraint, and else one new live row at version 1 with every submitted value, empty values elsewhere, the item named as owner and the first free of ten codes; all other rows, tracked versions and tables are kept, and ledger, log and answer are spelled out |
| `PushEffects.UpdateExact` | server/internal/storage/push_commit.go:660-729 | a pushed update, decided on the tables: refused if the row is not there for the item named, if everything submitted loses or if a parent or name is in the way; an error for an undecodable value or a broken constraint; else the row at its next version with the submitted values that do not lose, exactly the changed columns tracked, the losers listed in name order with the server's values, all else kept |
| `PushEffects.AdjustmentExact` | server/internal/storage/push_commit.go:1663-1719 | a pushed adjustment, decided on the tables, with the posting it makes |
| `Runs.StepAdvances` | server/internal/storage/field_versions_record.go:8-38 | every event of every kind keeps the tables sound, moves rows forward only (version and change_seq), and records a changed column at the row's new version or not at all |
| `Runs.RunAdvances` | server/internal/storage/push_commit.go:128-221 | the same between any two states of any run |
| `MergeTheorem.TrackedVersionExact` | server/internal/storage/field_versions_record.go:8-38 | over every run, the tracked version of a field exceeds a base version exactly when a recorded write after that base changed the field |
| `MergeTheorem.ConflictExactlyWhenChanged` | server/internal/storage/push_commit.go:249-271 | merge theorem: after every run, a stale push puts a field in conflict exactly when some write after its base version changed that field (or, for the value union, a submitted member of the union); only the placement column of a row that an accepted deletion of its location moved since the base is excepted |
| `MergeTheorem.AnswerExact` | server/internal/storage/push_commit.go:660-719 | the same on the answer: the conflicts a push reports when it is accepted, or when nothing of it is left to apply, are exactly the submitted fields changed since its base |
| `MergeTheorem.SilentChangeGuard` | server/internal/storage/locations.go:321-428 | a location deletion changes a placement column exactly when it is accepted and the deleted location holds the row |
| `MergeTheorem.SilentMoveExact` | server/internal/storage/locations.go:375-407 | the exception, exactly: for every run, row, column and base the tracked version tells whether the column changed since, if and only if it is no placement column, or no accepted deletion of the location holding the row moved it since the base, or another change of the column was recorded since |
| `MergeTheorem.SilentMoveWitness` | server/internal/storage/locations.go:375-407 | a run in which `location_id` changed at version 2 and its tracked version is still 1 |
| `MergeTheorem.WatermarkComplete` | server/internal/storage/push_commit.go:223-229 | after every run, the rows whose change_seq exceeds a watermark are exactly those written since it was read, and none exceeds the counter |
| `Blocks.TrackedExact` | server/internal/storage/push_commit.go:856-866 | over every run of creates, edits, removals and pushes, a column's version tracked under the row's own id exceeds a base exactly when a write after that base changed the column |
| `Blocks.StepExact` | server/internal/storage/push_commit.go:731-873 | what each event does to blocks and tracked versions: a push takes the submitted columns except those tracked after the base under the id sent, when the block has moved on |
| `Blocks.OwnIdIsRight` | server/internal/storage/push_commit.go:796-866 | merge theorem for warranty blocks: a push that carries the row's id reports exactly the columns changed since its base version |
| `Blocks.AnyIdExact` | server/internal/storage/push_commit.go:813-864 | for a push that carries any id this holds, for all base versions and columns, if and only if each column's version tracked under that id is the row's, or the row's is its current version, at which the policy is not consulted, and the other is one more |
| `Blocks.NeighbourIsRight` | server/internal/storage/push_commit.go:810-813 | the second alternative occurs: another item's block, one version ahead, never misreports |
| `Blocks.ForeignIdExact` | server/internal/storage/push_commit.go:813-864 | under an id that is no block's nothing ever conflicts, which is right exactly when no submitted column changed |
| `Blocks.ForeignIdWitness` | server/internal/storage/push_commit.go:813-864 | a stale push under such an id overwrites a newer change without a conflict |
| `PushLaws.MergeLosesNothing` | server/internal/storage/push_commit.go:190-214 | on an accepted stale update conflicts and applied fields split the submitted names, applied columns hold the pushed value and all others the server's, and each conflict has a log row with both values |
| `PushLaws.UnionGoesTogether` | server/internal/storage/push_commit.go:441-482 | the submitted members of the custom field value union all conflict or none does |
| `PushLaws.FullUnionKeepsOneValue` | server/internal/storage/push_commit.go:1329-1396 | a well-typed push of the whole union leaves exactly one value column set, the one the type names, whether the union wins or loses |
| `PushLaws.AnsweredIsRecorded` | server/internal/storage/push_commit.go:128-216 | an answered mutation is on the ledger, a failed one leaves the tables as they were |
| `PushLaws.LedgerGrows` | server/internal/storage/push.go:299-322 | no event takes a ledger row back |
| `PushLaws.ReplayIsIdle` | server/internal/storage/push_commit.go:131-137 | pushing recorded mutations again, applied or conflicting, changes nothing and does not affect what follows in the batch |
| `PushLaws.ResumeAfterAnything` | server/internal/sync/push.go:66-105 | a batch that stopped after i mutations, pushed again in full after any run of other events, does what its missing mutations alone would do |
| `PushLaws.ResumeEqualsUninterrupted` | server/internal/sync/push.go:66-105 | stopping anywhere and pushing the batch again ends in the state of one uninterrupted push |
| `Convergence.EditsCombine` | server/internal/storage/push_commit.go:660-719 | item edits with pairwise disjoint fields and one base version all apply without conflict in any order; the item ends with all their values, one version per edit later |
| `Convergence.OrderDoesNotMatter` | server/internal/storage/push_commit.go:660-719 | two arrival orders of such edits end with the same item contents |
| `StockLaws.StepAppendOnly` | server/internal/storage/stock_adjustments.go:93-143 | a stock row is written once, by the event that carries its id, and never changes |
| `StockLaws.StockConserved` | server/internal/storage/stock_adjustments.go:93-143 | over every run in which only stock adjustments change an item's quantity, with replays and in any order, the final quantity is the initial one plus the deltas of exactly the rows added, each id once, and every stored resulting quantity is its prefix sum, as 64-bit integers |
| `StockLaws.InRangeIsExact` | server/internal/storage/stock_adjustments.go:93-143 | where the exact sum fits 64 bits the stored one is that sum |
| `Tidy.StepTidy` | server/internal/storage/labels.go:119-224 | every event keeps live labels differently named, live items differently coded, and live identifications and custom fields on live items |
| `Tidy.RunTidy` | server/internal/storage/items.go:155-341 | the same in every state of every run from an empty group |
| `Store.FieldLevelMergePolicy` | server/internal/storage/push_commit.go:249-271 | the loop splits sorted names, in order, into those whose tracked version (1 if untracked) exceeds the base and the rest |
| `Store.ValueUnionRule` | server/internal/storage/push_commit.go:441-482 | the loop over conflict and apply moves the union to the conflicts when one submitted member of it is there, keeping the sorted order |
| `Store.MergeColumns` | server/internal/storage/push_commit.go:484-566 | merged values are the decoded submitted ones where allowed and the current ones elsewhere; fails exactly when an allowed one does not decode |
| `Store.DecodeColumns` | server/internal/storage/push_commit.go:603-640 | the columns of a new row are the submitted values and empty ones elsewhere, written out column type by column type; fails exactly when a submitted value cannot be stored |
| `Store.DiffColumns` | server/internal/storage/field_versions_record.go:23-38 | lists exactly the columns whose values differ |
| `Store.Tables.SplitStale` | server/internal/storage/push_commit.go:660-690 | policy and union rule together give the specification's conflict list and apply set |
| `Store.Tables.CreateEntity` | server/internal/storage/push_commit.go:603-658 | a pushed create, with its guards, short-code draws and refusals, is the specified one |
| `Store.Tables.UpdateEntity` | server/internal/storage/push_commit.go:660-729 | a pushed update (fresh or stale, with the exit for nothing to apply and the guards that refuse it) is the specified one |
| `Store.Tables.PushAdjustment` | server/internal/storage/push_commit.go:1663-1719 | a pushed stock adjustment is the specified one |
| `Store.Tables.CheckUpdate` | server/internal/storage/locations.go:233-292 | the checks before a location or label update report exactly the specified fields |
| `Store.Tables.CheckCreate` | server/internal/storage/labels.go:119-127 | the checks before an insert report exactly the specified fields, with the label lookup as a search |
| `Store.Tables.ApplyMutation` | server/internal/storage/push_commit.go:119-221 | ledger check, dispatch, writes, ledger row and conflict rows together are the specified step; on an error every table is as before |
| `Store.Tables.CreateRow` | server/internal/storage/items.go:155-203 | a create inserts one row at version 1 under the next sequence number and keeps all others; it is refused, with nothing changed, exactly when the id is empty or taken, the columns do not fit, or the parent, name, code, owner or constraint check of its table fails |
| `Store.Tables.EditRow` | server/internal/storage/items.go:205-272 | a repository update succeeds exactly when there is a live row of that owner at exactly the expected version, the columns fit, and parent, cycle, name and constraint checks pass, all on the tables; then this one row takes the columns at the next version and sequence number and exactly the changed columns are tracked; otherwise nothing changes |
| `Store.Tables.DeleteRow` | server/internal/storage/items.go:274-341 | a repository delete tombstones the live row and, with an item, its live identifications and custom fields, each at its next version and all under one sequence number, and no other row; it is refused, with nothing changed, exactly when there is no such live row of that owner |
| `Store.Tables.DeleteLocation` | server/internal/storage/locations.go:321-428 | accepted exactly for a live location that holds nothing, or with reassignment to the root or to a live location that is not below it; then it is a tombstone, each live item and location directly in it is placed at the target and otherwise as before, and no other row changes; a refusal changes nothing |
| `Store.Tables.CreateAdjustment` | server/internal/storage/stock_adjustments.go:63-143 | refused, with nothing changed, exactly for an empty or used id, a dead item or a delta beyond 64 bits; else one posting with its four columns and the item's new quantity |
| `Store.Tables.PushBatch` | server/internal/sync/push.go:61-105 | the batch loop applies the mutations in order up to the first error; its answer lists, in order and each once, the replays as skipped, the applied ones with their versions, and the conflicts of every mutation that was not skipped, applied or not, and the watermark is the counter |
| `Store.ImportCoreExact` | server/internal/storage/import_commit.go:257-283 | the import's write of an item's own columns, on the tables |
| `Forest.WalkBounded` | server/internal/storage/locations.go:294-319 | pigeonhole: in an acyclic graph a walk stays on it for at most one step per edge |
| `Forest.MoveCreatesCycle` | server/internal/storage/locations.go:294-319 | on acyclic edges the bounded walk says cycle exactly when the moving location is the candidate or one of its ancestors, and never gives up; in general a yes or no is always right |
| `Forest.RedirectAcyclic` | server/internal/storage/locations.go:375-407 | pointing any set of nodes at a target that lies below none of them keeps the graph acyclic |
| `LocationRuns.StepForest` | server/internal/storage/locations.go:171-292 | every event keeps parent edges, tombstones included, acyclic, parents existing, and live locations under live parents |
| `LocationRuns.RemovalForest` | server/internal/storage/locations.go:321-428 | in particular deletion, with or without reassignment, to a target or the root |
| `LocationRuns.RunForest` | server/internal/storage/locations.go:171-428 | forest invariant in every state of every run from an empty group |
| `LocationTree.GroupByParent` | server/internal/storage/locations.go:430-465 | the child index lists each edge's child once under its parent and nothing else |
| `LocationTree.Descendants` | server/internal/storage/locations.go:430-465 | returns exactly the live locations from which the walk up meets the given one, each once |
| `Rollup.BreadthFirst` | server/internal/storage/locations.go:444-465 | the queue loop visits exactly what lies below the root, through dead nodes, and terminates |
| `Rollup.LinkNodes` | server/internal/storage/locations_tree.go:19-58 | every node becomes the child of its one parent or a root, once |
| `Rollup.Tree.RollUp` | server/internal/storage/locations_tree.go:60-72 | returns and stores the sum over the node's subtree, and stores every total below it |
| `LocationTree.BuildTree` | server/internal/storage/locations_tree.go:19-72 | every live location appears once, each total is the sum over its subtree, and the root totals add up to the sum over all live locations |
| `LocationTree.TotalsAgree` | server/internal/storage/locations_tree.go:60-72 | the two algorithms agree: what the tree carries at a live location is the sum of direct counts over its subtree, and what Descendants returns is that subtree, each location once |
| `LocationTree.SumCountsItems` | server/internal/storage/locations_tree.go:19-58 | summed over any locations, direct counts are the number of live items held there |
| `LocationTree.TreeCountsItems` | server/internal/storage/locations_tree.go:19-72 | in every state of every run each live location appears once and carries the number of live items held below it, and the root totals add up to the live items held by live locations |
| `Escape.EscapeValue` | server/internal/importexport/escape.go:7-21 | the byte loop, and its shortcut, is escaping |
| `Escape.UnescapeSubValue` | server/internal/importexport/escape.go:23-47 | the loop with its pending flag is unescaping |
| `Escape.SplitEscaped` | server/internal/importexport/escape.go:49-70 | the loop with its start index splits at unescaped separators only |
| `Escape.EscapedExact` | server/internal/importexport/escape.go:7-21 | escaping goes character by character: special ones get a backslash, the others stay |
| `Escape.UnescapedExact` | server/internal/importexport/escape.go:23-47 | any text is a row of plain characters, protected characters and possibly one final backslash, and unescaping keeps one character of each |
| `Escape.PiecesExact` | server/internal/importexport/escape.go:49-70 | the pieces of any text, joined, are the text, and none can be split further: the split points are exactly the unprotected separators |
| `Escape.EscapeRoundTrip` | server/internal/importexport/escape.go:7-47 | unescaping inverts escaping for every string and set of special characters |
| `Escape.SplitJoin` | server/internal/importexport/escape.go:49-99 | splitting inverts joining escaped parts; no separator inside a value is a split point |
| `Cells.ParseLabels` | server/internal/importexport/parse_row.go:111-130 | the loop collects the accepted names and counts the errors |
| `Cells.ParseIdentifications` | server/internal/importexport/parse_row.go:132-164 | the loop collects well-formed kind:value pairs and counts every fault |
| `Cells.ParseAttachments` | server/internal/importexport/parse_row.go:166-206 | the loop collects well-formed triples and counts every fault |
| `Cells.LabelsRoundTrip` | server/internal/importexport/encode.go:194-203 | printed labels, none empty, parse back to the same list without errors |
| `Cells.IdentsSplitBack` | server/internal/importexport/encode.go:205-214 | any printed list of pairs splits back into its entries at the outer level |
| `Cells.IdentTextRoundTrip` | server/internal/importexport/encode.go:205-214 | any printed pair splits and unescapes to its two values |
| `Cells.IdentsRoundTrip` | server/internal/importexport/encode.go:205-214 | printed identifications with known kinds and values parse back to the same list |
| `Cells.FilesSplitBack` | server/internal/importexport/encode.go:216-229 | any printed list of attachment triples splits back into its entries |
| `Cells.FileTextRoundTrip` | server/internal/importexport/encode.go:216-229 | any printed triple splits and unescapes to its three values |
| `Cells.FilesRoundTrip` | server/internal/importexport/encode.go:216-229 | printed attachment references with known categories parse back to the same list |
| `Cells.DayExact` | server/internal/importexport/parse_validate.go:12-24 | a date cell is accepted exactly when it spells a day of the calendar as four, two and two digits |
| `Cells.DaysExact` | server/internal/importexport/parse_validate.go:12-24 | months are as long as the Gregorian day count says, with February a day longer in its leap years |
| `Numerals.Int64RoundTrip` | server/internal/importexport/encode.go:83-125 | printed 64-bit integers parse back |
| `Numerals.ParseInt64Exact` | server/internal/importexport/parse_validate.go:60-83 | what parses are exactly the numerals, signed or not, of 64-bit integers, at their place value |
| `Numerals.FormatNatExact` | server/internal/importexport/encode.go:83-132 | printed numbers are their digits, without leading zeros |
| `Headers.NameCounts` | server/internal/importexport/customfields_columns.go:53-59 | counts definitions per name |
| `Headers.CountIsAmbiguity` | server/internal/importexport/customfields_columns.go:53-72 | a count above one is exactly a name shared by two definitions |
| `Headers.HeaderResolves` | server/internal/importexport/customfields_columns.go:24-72 | every definition's header parses and resolves to that definition, whatever order printer and parser see the definitions in |
| `Headers.ResolveExact` | server/internal/importexport/parse_row.go:300-396 | any header resolves to the definition with its id if it has one, else to the only one of its name, else to none |
| `Headers.ColumnExact` | server/internal/importexport/customfields_columns.go:24-51 | a dynamic header that is recognised is a tag and one or two pieces, unescaped to what it stands for |
| `Headers.ColumnAccepted` | server/internal/importexport/customfields_columns.go:24-51 | and every header of that form is recognised |
| `Headers.AdHocHeaderParses` | server/internal/importexport/customfields_columns.go:74-76 | an ad-hoc header parses back to its type and name |
| `Headers.ExportDistinct` | server/internal/importexport/encode.go:32-69 | the headers of an export are pairwise distinct, because they mean different things |
| `Headers.ParseHeaderLayout` | server/internal/importexport/parse.go:79-111 | accepts a header row exactly when no column repeats, every column is recognised and no fixed one is missing, and locates every column |
| `Headers.ExportAccepted` | server/internal/importexport/parse.go:79-111 | every exported header row is accepted, and its dynamic columns are found in order |
| `Rows.CustomFieldsEqual` | server/internal/importexport/diff.go:190-235 | the map-building loops decide equality per live definition (last value) and per ad-hoc key (first value) |
| `Sorting.SortedStringsEqual` | server/internal/importexport/diff.go:66-100 | comparing the sorted lists element by element decides equality with repeats counted |
| `Rows.DiffStagedRow` | server/internal/importexport/diff.go:8-44 | lists exactly the attribute groups that differ, each once, in the fixed order |
| `Rows.DiffersExact` | server/internal/importexport/diff.go:8-262 | a group differs exactly when it is not the same, written out attribute by attribute: texts, sets of labels, blocks field by field, the last value per live definition and the first per ad-hoc key |
| `Export.CollectAdHocColumns` | server/internal/importexport/customfields_columns.go:94-117 | lists exactly the ad-hoc keys in use, each once, sorted by type and name |
| `Sorting.SortByOrdered` | server/internal/importexport/encode.go:71-81 | sorting by a comparison leaves no element before an earlier one; the comparisons in use qualify |
| `Sorting.BeforeExact` | server/internal/importexport/customfields_columns.go:94-117 | the order of strings: a proper prefix comes first, else the smaller character where they part |
| `Export.FillDefColumns` | server/internal/importexport/encode.go:134-149 | overwrites its window of the buffer with the definition cells and leaves the rest |
| `Export.FillAdHocColumns` | server/internal/importexport/encode.go:151-171 | overwrites its window of the buffer with the ad-hoc cells and leaves the rest |
| `Export.FixedCellsExact` | server/internal/importexport/encode.go:83-132 | every one of the 25 fixed cells of a record is the one that belongs under its header |
| `Export.EncodeCSV` | server/internal/importexport/encode.go:32-69 | header over the definitions sorted by name and id and the keys in use; each record depends on its row alone although all share one buffer |
| `Export.ColumnsInOrder` | server/internal/importexport/encode.go:71-81 | definition columns are ordered by name, then id; ad-hoc columns by type, then name |
| `Import.ParseCustomFields` | server/internal/importexport/parse_row.go:300-396 | column by column: skipped when empty, resolved, converted, or an error |
| `Import.ReadFieldExact` | server/internal/importexport/parse_row.go:300-396 | a cell of a dynamic column gives nothing when empty, an error when it has no type or does not fit it, and else one value, named, typed and linked by its column and holding what the cell says |
| `Import.ParseRow` | server/internal/importexport/parse_row.go:27-109 | a row with errors is an error row, a known id an update, else a create |
| `Import.RowExact` | server/internal/importexport/parse_row.go:27-396 | what the cells of a record make of it, whatever they hold: an error row exactly when there is no name, a cell that is no number, day or truth value, a bad list entry or an unreadable custom field; else an update of the known item named, or a create; and the values that the cells say |
| `Import.LineExact` | server/internal/importexport/parse.go:22-66 | an unreadable line or one of another width than the header is an error row; any other is what the cells found under their headers make of it |
| `Import.ParseCSV` | server/internal/importexport/parse.go:22-66 | a rejected header rejects the file; otherwise one staged row per line, in order, unreadable lines and lines of the wrong width as error rows, and custom fields linked to live definitions only |
| `RoundTrip.FieldsRoundTrip` | server/internal/importexport/parse_row.go:300-396 | custom fields of an exported record read back without errors, and compare equal exactly when none printed as an empty cell |
| `RoundTrip.StagedRowBack` | server/internal/importexport/parse_row.go:27-109 | an exported record of a well-formed row is staged as an update of that item in which at most the custom fields differ |
| `RoundTrip.Reimport` | server/internal/importexport/parse.go:22-66 | the export of well-formed rows parses: its header gives a layout, and what is staged for its lines under that layout is, row by row, an update of the exported item in which at most the custom fields differ |
| `RoundTrip.ExportThenImport` | server/internal/importexport/encode.go:32-192 | for all well-formed rows and definitions whose numbers read back, the exported table, its layout and its staged rows give update rows without errors; the diff of each names exactly the groups in which its staged row differs, at most the custom fields, and is empty exactly when no custom field value that counts prints as an empty cell |
| `RoundTrip.PrinterForRows` | server/internal/importexport/encode.go:173-192 | for every set of rows there is a printer and parser of numbers that reads all their numbers back |
| `RoundTrip.EmptyTextWitness` | server/internal/importexport/encode.go:173-192 | the export of an item whose one custom field is an empty text stages without errors, and the diff of that staged row is exactly "custom fields", whatever the printer of numbers |
| `ImportCommit.ReplaceRows` | server/internal/storage/import_commit.go:397-446 | fails exactly when the table rejects one of the proposed rows; else the item's live rows become tombstones at their next version, one new row per proposed value follows, in order, and all other rows stay |
| `ImportCommit.Upsert` | server/internal/storage/import_commit.go:481-620 | delete, create, update or nothing, row by row: the item's live block dies, takes the proposed value at its next version, or is added, and an update tracks at its new version exactly the columns it changes |
| `ImportCommit.StoredExact` | server/internal/storage/import_commit.go:481-620 | a proposed block is stored field by field, an empty date as NULL |
| `ImportCommit.WrittenSettles` | server/internal/importexport/diff.go:190-235 | written custom fields, read back in insertion order, compare equal to the proposed ones if and only if these are linked to live definitions only |
| `ImportCommit.FieldsSettle` | server/internal/importexport/diff.go:190-235 | a remark: in just any read order this would need no two of them to disagree on one target as well |
| `ImportCommit.DiffPatchConverges` | server/internal/storage/import_commit.go:235-329 | after committing what the diff named, a second diff names nothing, except rewritten custom fields exactly when one is linked to a definition that is not live; what the first did not name is as before |
| `ImportStore.Catalog.ResolveLabelIDs` | server/internal/storage/import_commit.go:358-395 | one live label per distinct name; missing ones are added, one each and no others, under the next sequence numbers; existing labels untouched |
| `ImportStore.Catalog.ReplaceLabels` | server/internal/storage/import_commit.go:331-354 | the item's label names become the proposed set, other items' stay |
| `ImportStore.Catalog.CommitUpdateRow` | server/internal/storage/import_commit.go:235-329 | fails exactly when the item is unknown or something written does not fit: a location or definition the group does not have, an identification kind, field type or truth value the tables reject; an empty change list does nothing, otherwise exactly the named groups (core columns together) are rewritten, row by row: the item at its next version with the changed columns tracked, replaced rows, upserted blocks and added labels, and every row written is above the watermark |
| `ImportStore.Catalog.CommitCreateRow` | server/internal/storage/import_commit.go:172-233 | a new item at version 1 under the first free of ten short codes, with every proposed group written and all others kept; fails exactly when all draws are in use or something of the row does not fit the tables' foreign keys and checks |
| `ImportStore.Catalog.Commit` | server/internal/storage/import_commit.go:121-170 | a session commits at most once, all rows or none; it does commit if update rows name known items, all rows fit the tables and code draws are free, and a row that does not fit, such as a create with another group's location after a good update, rolls everything back; unnamed items are kept, the last row naming an item is in place, counts are per kind, created items are listed with their rows and hold their proposals, and every row written lies between the old counter and the new |
| `ImportStore.CommitConverges` | server/internal/storage/import_commit.go:121-170 | after a whole commit, an item named by one row with its diff does not differ from its proposed row any more if and only if rewritten custom fields are linked to live definitions, as those of a parsed file are, and its other groups are as before |
| `Classify.DistinctSourceIds` | server/internal/httpapi/import_classify.go:12-26 | the non-empty ids of the lines, each once |
| `Classify.SecondPass` | server/internal/httpapi/import_classify.go:47-67 | parsing with the items found under the ids of a first pass gives what parsing with all items of the group would |
| `Classify.ClassifyImportRows` | server/internal/httpapi/import_classify.go:39-141 | rejects exactly the headers that do not parse; otherwise a line is bad exactly when it has errors or names no live location, and is else a create, an update with its diff against the item, or unchanged when that diff is empty |
| `Classify.LineFits` | server/internal/importexport/parse_row.go:27-109 | whatever a line holds, the only constraint of the tables that its staged row can break is the foreign key of its location |
| `Classify.GoodFileFits` | server/internal/httpapi/import_classify.go:88-113 | a file without bad rows breaks no constraint and names known items only |
| `Classify.RowSettles` | server/internal/httpapi/import_classify.go:120-135 | after the commit of a batch, an item that no other row updates does not differ from its row in anything |
| `Classify.CommitFile` | server/internal/httpapi/import_commit.go:118-217 | a file with a bad row changes nothing; one without is committed as a whole, provided its session is staged and code draws are free, and then every item that one row speaks of reads as that row proposes, so that the diff against it is empty |
| `Backoff.ComputeDelay` | server/internal/ratelimit/limiter.go:124-130 | the doubling loop, with 64-bit wrap-around, is the specified delay |
| `Backoff.ClosedFormExact` | server/internal/ratelimit/limiter.go:124-130 | the delay is min(max, base * 2^shift) for every base and count if and only if max is at most 2^62 + 1 |
| `Backoff.WrapWitness` | server/internal/ratelimit/limiter.go:124-130 | above that, two doublings of 2^62 + 1 give a delay of 4 nanoseconds |
| `Backoff.DelayMonotone` | server/internal/ratelimit/limiter.go:124-131 | delays are positive, at most the cap, and do not shrink as failures mount |
| `RateLimit.Limiter.constructor` | server/internal/ratelimit/limiter.go:55-85 | zero and negative settings become 4096 keys, 5 free attempts, one second and thirty seconds; nothing is tracked |
| `RateLimit.Limiter.Allow` | server/internal/ratelimit/limiter.go:87-102 | refuses exactly before the entry's deadline, and reports the least wait that is enough: refused at every earlier time, admitted at the end of it; marks the key most recently used, changes nothing else |
| `RateLimit.Limiter.RecordFailure` | server/internal/ratelimit/limiter.go:104-132 | counts up to the ceiling, blocks past the free attempts, evicting the least recently used key if a new one needs room |
| `RateLimit.Limiter.RecordSuccess` | server/internal/ratelimit/limiter.go:134-144 | forgets the key |
| `RateLimit.Limiter.InsertLocked` | server/internal/ratelimit/limiter.go:146-160 | evicts the last key when full and puts the new one first |
| `RateLimit.StepSound` | server/internal/ratelimit/limiter.go:87-160 | every operation keeps list and table holding the same keys, each once, at most the maximum |
| `RateLimit.LruRefines` | server/internal/ratelimit/limiter.go:87-160 | over every run, a key between whose uses fewer other keys than the table holds were used (failed, or asked for while tracked) has exactly the entry of a limiter that never forgets |
| `RateLimit.ReferenceExact` | server/internal/ratelimit/limiter.go:104-144 | in terms of the events alone: the reference tracks the keys that failed since their last success, with their count up to the ceiling, and past the free attempts blocks until min(max, base * 2^(failures - free - 1)) after the last failure |
| `RateLimit.RefusedExactly` | server/internal/ratelimit/limiter.go:87-132 | an intact key is refused exactly when it failed more often than is free and its last failure is less than that delay ago |
| `RateLimit.IntactAnswers` | server/internal/ratelimit/limiter.go:87-102 | and gets the same answers |
| `RateLimit.NeverStricter` | server/internal/ratelimit/limiter.go:104-160 | over every run and for every key, forgetting leaves no more failures and no later deadline than the reference has, so whatever is refused the reference refuses for at least as long |
| `RateLimit.WaitingSuffices` | server/internal/ratelimit/limiter.go:87-102 | waiting what Allow reports, with no failure of that key in between, is enough whatever else happens |
| `RateLimit.WaitExact` | server/internal/ratelimit/limiter.go:87-102 | over every run the reported wait is the least that is enough and never exceeds the cap |
| `RateLimit.IntactWait` | server/internal/ratelimit/limiter.go:87-132 | for an intact key it is what is left of min(max, base * 2^(failures - free - 1)) after its last failure |
| `Reclaim.StepInv` | server/internal/attachments/reclaim.go:46-139 | every step of upload, thumbnail, deletion and reclaim keeps the protocol's invariant |
| `Reclaim.RowsExact` | server/internal/attachments/reclaim.go:118-165 | each step's effect on each row |
| `Reclaim.FilesExact` | server/internal/attachments/reclaim.go:77-116 | each step's effect on each file |
| `Reclaim.CondemnHarmless` | server/internal/attachments/reclaim.go:77-116 | an unreferenced file older than the grace hour is not, and will not be, the file of a live row |
| `Reclaim.RunsAreSafe` | server/internal/attachments/reclaim.go:46-139 | over all interleavings within the delays no pass unlinks a file a live row names, tombstones a row whose original is there or clears a thumbnail that is there, and live rows keep their files |
| `Reclaim.TooSlowWitness` | server/internal/attachments/upload.go:112-157 | delays adding up to the grace hour admit a run that unlinks a live row's file |
| `Reclaim.GraceExact` | server/internal/attachments/reclaim.go:75-105 | all runs within two delays are safe if and only if these add up to less than the grace hour |
| `ReclaimPass.Group.ReclaimOrphanedFiles` | server/internal/attachments/reclaim.go:77-116 | a file stays exactly if it is referenced or younger than an hour, and the removed ones are counted |
| `ReclaimPass.Group.ReclaimRow` | server/internal/attachments/reclaim.go:118-165 | tombstones the row, clears its thumbnail or leaves it, by what is missing |
| `ReclaimPass.Group.ReclaimGroup` | server/internal/attachments/reclaim.go:46-74 | an undisturbed pass keeps exactly the files that a live row names or that are younger than an hour, tombstones exactly the live rows whose original is missing, clears exactly the missing thumbnails of the others, and reports the three numbers |
| `ReclaimPass.PassSettles` | server/internal/attachments/reclaim.go:46-165 | afterwards live rows have their files, what is left and old was referenced, and a second look settles nothing more |
| `ReclaimPass.PassIsRun` | server/internal/attachments/reclaim.go:46-165 | that pass is a run of the concurrent protocol's steps |
| `Base64.BytesRoundTrip` | server/internal/auth/phc.go:14 | decoding inverts encoding for all byte strings, section 4 of RFC 4648 without padding |
| `Base64.AlphabetExact` | server/internal/auth/phc.go:14 | the symbols are table 1 of RFC 4648 |
| `Base64.ValuesExact` | server/internal/auth/phc.go:14 | text spells the groups whose symbols it shows between line breaks, and no others |
| `Base64.BytesExact` | server/internal/auth/phc.go:14 | groups decode unless a single one is left over, each byte from its own eight bits |
| `Base64.EncodedExact` | server/internal/auth/phc.go:14 | encoding gives as few groups as possible, with zero unused bits, and no line breaks |
| `Phc.EncodeText` | server/internal/auth/phc.go:36-51 | the builder writes the five '$'-separated fields |
| `Phc.EncodeExact` | server/internal/auth/phc.go:36-51 | the encoded text spells version, costs, salt and key, numbers without leading zeros |
| `Phc.HashRoundTrip` | server/internal/auth/phc.go:36-111 | decoding an encoded hash gives back parameters, salt and key if and only if parameters and lengths are within the limits |
| `Phc.DecodedWithinLimits` | server/internal/auth/phc.go:53-137 | everything decode accepts is within the limits, m at least 8p included (section 3.1 of RFC 9106), and encodes to a string that decodes to the same |
| `Phc.DecodeExact` | server/internal/auth/phc.go:53-111 | decoding accepts exactly the texts "$argon2id$v=19$m=...,t=...,p=...$salt$key" whose numbers are digits, whose salt and key are base64 and whose values are within the limits, written out, and returns what they spell |

## Left out

- Sold-to and purchased-from blocks repeat the warranty block, which is modelled on its own in Blocks, not as events of the sync runs; label edges and attachments over push are not modelled.
- Timestamps, request contexts and logging: nothing here depends on them; the clock is a parameter where it matters.
- Random ids and short-code draws: taken as inputs that come with the mutation or the create, up to ten draws; ids drawn one after the other increase, so custom fields of one commit are read back in the order of their insertion.
- SQL text, and unique-index errors other than a short-code clash. Of the schema's constraints, those on the columns that pushes, repository calls and imports write are modelled: ids of locations and field definitions, identification kinds, field types and truth values.
- Other writes between reading a group, classifying a file and committing it; lookup errors other than "not found".
- Parameter validators of the repositories, except emptiness of ids.
- Paging of pulls and conflict lists: only the watermark they rely on is modelled.
- The byte level of CSV files: a file is a header and lines, a line either unreadable or a list of cells; quoting and read errors are not modelled.
- Float formatting: an abstract printer and parser, assumed inverse on the numbers the rows hold; NaN has no place among them.
- The attachments column and short codes are parsed on import and then not compared or written, as in the source.
- Import satellites (labels, blocks, identifications, custom fields) are modelled in ImportCommit, ImportStore and Classify, not as events of the sync runs, which include the import's write of the core columns only.
- Tree nodes are identified by location id instead of by address, item counts are unbounded integers, and sibling order is not modelled.
- Mutual exclusion in the limiter: every operation holds the lock for its whole duration, so operations are steps.
- Reclaim's report of errors, groups other than one, and path resolution under the data directory.
- Password hashing itself, image scaling, HTTP handlers, router, web UI, command line, backup and restore.
