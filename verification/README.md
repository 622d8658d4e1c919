# A verified model of restic-defensive-mcp

restic-defensive-mcp answers seven read-only MCP tools by running restic commands and reading their
JSON output. This project models the parts of the server that hold state, branch or count, and proves
what its documentation and tests promise about them for all inputs, all runs and all interleavings.
`dafny verify dfyconfig.toml` checks the whole project.

| module | what it models |
|---|---|
| `Paths` | lexical path cleaning, containment and the projection of snapshot roots on an allowlist |
| `Selection` | which snapshots are visible, which ones a request selects, what is published of them |
| `Paging` | what one page of a scan is, its flags, and the walk along `next_cursor` |
| `ScanLS` | the incremental scanner of `restic ls` |
| `ScanFind`, `FindPages` | the incremental scanner of `restic find`, and what its pages mean |
| `FindReports` | which find documents a scan may call complete, and what damage is an error |
| `FindDisplay` | the display order of `find_files`, and what a client that follows every cursor is shown |
| `FindScope` | under which snapshot a match is listed, and whether the policy accepts it there |
| `KeyOrder` | the order of the keys in a find group, and what a complete scan counts |
| `ByteCuts` | find output that the byte budget cuts short |
| `BudgetReader` | the reader that caps the bytes of a scan |
| `Listing` | `list_snapshots`: order, first page, and continuation by key while the repository changes |
| `Coalescer` | coalescing of identical in-flight metadata commands, as an interleaved step system |
| `MetadataCache` | the short-lived result cache, its key, and the argument check that makes the key unambiguous |
| `RunMetadata` | a metadata request from its arrival to its answer |
| `Slots` | the two-level command slots, as an interleaved step system |
| `CursorStore` | the bounded store of single-use cursors |
| `Freshness` | the freshness summary |
| `CappedBuffer` | the output buffer with its overrun callback |
| `Basics` | shared vocabulary: filtering, slicing, splitting, the order on strings, stable sorting |

How it is built. A scanner is specified by a *visit*: everything it would accept from a stream if no page
ever filled up. The visit depends on the stream, the decoded-entry limit and the policy, never on the page
asked for, so a page is a slice of it (`Paging.PageOf`) and the pages of one walk fit together. The scanners
themselves are loops with counters and a page in progress, proved equal to that slice for every input; the
meaning of a visit (filter, skip, take) is then proved against plain filtering of the records. A client is a
function of the server's answers (`Paging.Follow`), so what it receives over all its pages is stated for the
answers the scanners give. Objects that the server updates in place are classes (`MetadataCoalescer`,
`Cache`, `Store`, `Reader`, `Buffer`), each method proved against a function of the old state. Protocols are
runs of atomic steps, one for every critical section or channel operation, in any order and of any length.

What an answer means is stated apart from the functions that compute it, with plain comparisons on the input:
which path is accepted (`Paths.CleanPathAccepts`), which snapshot is visible and wanted (`Selection.Admits`,
`Listing.Wanted`), what a line or a match is listed as (`ScanFind.ListedAs`), how a scan reports its end
(`ScanLS.Reports`, `FindReports.WellFormed`), what a status says (`Freshness.StatusSays`).

Where the code and its documentation, or the code and what one would expect of it, differ, the model
follows the code, shows a case, and states when the expected behaviour holds:

- `limit` is documented as the page size of `find_files` (docs/tool-contract.md:208), and a scan is said
  to stop at the first authorized entry beyond a full page (docs/scan-budgets.md:33-35). The fill test
  counts the matches of one group (internal/restic/scan.go:465), so a page over several snapshots can
  exceed `limit`: `Paging.PageSizeBound`, `KeyOrder.FindPageCanExceedItsLimit`.
- `next_cursor` is documented to exist only while another visible page can be requested
  (docs/tool-contract.md:194). A page that was filled before a budget stop has one too
  (internal/restic/scan.go:482-484); it leads somewhere exactly when an entry overflowed the page:
  `Paging.CursorPromise`, and where it does not: `ScanLS.BudgetCursorLeadsToEmptyPage`.
- A byte ceiling is documented to end a scan as an incomplete page (docs/scan-budgets.md:36-38). When it
  is crossed after the closing bracket of a find document and the page would have been complete, the code
  reports a protocol error (internal/restic/scan.go:367-372); everywhere else it keeps the promise:
  `ByteCuts.ByteBudgetReporting`; an example: `ByteCuts.CutAfterListLosesThePage`.
- A byte budget that cuts a group before its closing brace makes the order of its keys matter
  (internal/restic/scan.go:294-309): matches that came before the id are dropped, whether the cut is within
  their array or behind it. Exactly when that shows in one group: `ByteCuts.CutMakesKeyOrderMatter`, exactly
  when in an answer: `ByteCuts.KeyOrderShowsUnderCut`; examples: `ByteCuts.CutDropsAMatch`,
  `ByteCuts.CutDropsAWholeArray`.
- Identical in-flight commands are documented to share one invocation (docs/restic-compatibility.md:99-101).
  `finish` removes the registration of its key whatever call it names (internal/repositories/metadata.go:150),
  without the test that `release` makes first (line 140). Whoever waits shares its call with every newcomer
  exactly when no call finishes while another one is registered for its key:
  `Coalescer.SharedIffNoLateFinish`; a run where that fails: `Coalescer.LateFinishSplitsCallers`; exactly
  when no key has two unfinished calls, or two that are waited for: `Coalescer.OnePerKeyIffNoStrayArrival`.
- A match is tested under the snapshot id known when it is read and listed under the id its group has when
  the page ends (internal/restic/scan.go:270-306, 387-394, 457). The two can differ when a group repeats
  its snapshot key: exactly when every page stays within the policy `FindScope.PagesAuthorizedIff`, which
  groups cannot go wrong `FindScope.SteadyPagesAreAuthorized`, and one that does
  `FindScope.LateIDMovesMatches`.
- `CleanPath` rejects some of its own results (internal/policy/paths.go:43):
  `Paths.CleanPathFixesItsResults`, `Paths.CleanPathRejectsItsOwnResult`.
- `CleanSnapshotPath` takes the slash of a root "/:" for a volume letter (internal/policy/paths.go:75-86):
  `Paths.ColonAfterRootIsDropped`; exactly when it agrees with `CleanPath`: `Paths.SnapshotPathsAgree`.
- A snapshot with a zero timestamp gives a cursor without a marker, and the listing starts over
  (internal/mcpserver/handlers.go:355): exactly when it goes on `Listing.ContinuationAdvances`, and a
  repository whose listing never ends `Listing.ZeroTimesRepeat`.
- Cursors created at the same instant are equally old, and eviction may take the younger one
  (internal/mcpserver/cursor.go:108-120). A cursor outlasts the next `max - 1` issues exactly when it is
  younger than everything it found in the store: `CursorStore.KeptIffYoungest`; an example:
  `CursorStore.TiesMayEvictEarly`.
- The key of a freshness group does not always tell hosts and tags apart
  (internal/mcpserver/freshness.go:165-172): `Freshness.TagsCanCollide`, `Freshness.HostsCanCollide`. Exactly
  when two snapshots share a group, whatever their hosts and their tags (which parsing keeps non-empty):
  `Freshness.GroupSharedIff`; without a bar in a host, exactly when the hosts and the comma-separated pieces of
  the tags agree: `Freshness.KeyNamesHostAndPieces`.
- An empty write to an exactly full output buffer counts as an overrun
  (internal/restic/runner.go:332-341): the contract of `CappedBuffer.Buffer.Write`, and an example
  `CappedBuffer.EmptyWriteFires`.

## Model

| member | source | states |
|---|---|---|
| `Paging.WalkDelivers` | internal/mcpserver/handlers.go:489-502 | following every cursor with any per-page limits of at least 1 ends, within one page more than there are entries left, the way the stream ends; the pages joined are all accepted entries once and in order, or a prefix of them before a malformed tail |
| `Paging.FlagDiscipline` | internal/restic/scan.go:178-198 | on every successful page complete excludes more, budget and early stop, not complete means stopped early, a complete page counted everything accepted, and more means at least `limit` entries, so a continuation advances |
| `Paging.PageIsSlice` | internal/restic/scan.go:173-186 | a page is the contiguous slice of accepted entries that starts at `skip` |
| `Paging.MoreMeansOverflow` | internal/restic/scan.go:465-470 | without a budget stop, more is reported exactly when two unskipped accepted entries `limit` places apart share a group |
| `Paging.PageSizeBound` | internal/restic/scan.go:465 | a page stays within `limit` if and only if no more than `limit` entries are left or the first `limit + 1` of them share a group |
| `Paging.CursorPromise` | internal/restic/scan.go:465-492 | after a page that reports more, the next page holds something, or the stream cannot be read to it, if and only if some entry overflowed this page; otherwise the next page is empty, final and stopped by a budget |
| `Paging.OneGroupPage` | internal/restic/scan.go:178-186 | with a single group a page is take after skip, and more means something is left over |
| `Paging.PageCountsDecoded` | internal/restic/scan.go:126-132 | a page never reports more decoded records than the limit |
| `ScanLS.Scan` | internal/restic/scan.go:107-200 | the one-pass loop returns the page of the whole stream, and reports itself honestly: a complete page only if the stream came to its normal end and every line was read; a byte ceiling is never complete, and behind the last line it makes a page that did not overflow a budget page, as a failing reader makes it an error |
| `ScanLS.ScanReports` | internal/restic/scan.go:107-200 | reading stops at the first line that is malformed, cannot be decoded or exceeds the limit, or at the end; the page is the accepted nodes before it, skipped and taken, and it is full, complete, budget page or error as what stopped it says, with all counts |
| `ScanLS.NodeIsListing` | internal/restic/scan.go:152-166 | a node is decoded if and only if its path can be cleaned, and is listed under that path with its own name, type and size |
| `ScanLS.ScanRefinesFilterSkipTake` | internal/restic/scan.go:107-200 | a page is filter, skip, take of the decoded records, of all nodes when no budget stops it; more exactly when accepted entries pass skip plus limit; a complete scan has the true count; the decoded limit holds |
| `ScanLS.VisitFiltersNodes` | internal/restic/scan.go:148-173 | what is accepted is the filtered prefix of the nodes that were decoded |
| `ScanLS.VisitCounts` | internal/restic/scan.go:126-151 | the decoded count stays within the limit and within the nodes of the stream, and reaches them all at a normal end |
| `Paging.ClientSeesWalk` | internal/mcpserver/handlers.go:489-502 | a client that follows every cursor of a server answering with the pages of a visit receives exactly the pages of the walk, one by one, and finishes as it does |
| `ScanLS.BrowseDelivers` | internal/mcpserver/handlers.go:489-502 | a client that browses to the end receives, its pages joined, the accepted nodes exactly once and in order: all of them at a normal end, those among the decoded ones when a budget ends it, a prefix before a malformed line |
| `ScanLS.BudgetCursorLeadsToEmptyPage` | internal/restic/scan.go:126-132 | a listing whose full first page is ended by the decoded-entry limit has a cursor that leads to an empty page |
| `ScanFind.Scan` | internal/restic/scan.go:207-376 | the token loop returns the regrouped slice of everything the document would yield, for every document, key order, fault position, budget, skip and limit; every entry on the page is a match of the document under its cleaned path, with its own name or else the last name of that path, and its type and size |
| `ScanFind.EntryIsListing` | internal/restic/scan.go:439-456 | a match can be read if and only if its path can be cleaned, and is then listed as just said |
| `ScanFind.NamelessMatch` | internal/restic/scan.go:446-449 | a match without a name at `parent/name` is listed as `name` |
| `ScanFind.NamelessFile` | internal/restic/commands_test.go:440-455 | "/data/hello.txt" without a name is listed as "hello.txt" |
| `FindReports.CompleteIffWellFormed` | internal/restic/scan.go:207-376 | a scan calls only well-formed documents complete whose records are all within the limit and were all counted; a well-formed one is never an error, and unless its page is full before, it is complete if and only if its records are within the limit |
| `FindReports.DamageIsAnError` | internal/restic/scan.go:207-376 | a budget page has a reason, the decoded-entry limit or the byte ceiling; without it output that is truncated, continued or otherwise not well formed is an error, unless the page is full before |
| `ScanFind.ScanMatches` | internal/restic/scan.go:396-480 | one matches array is followed to its end or to the first match that no longer fits, with counters, skip and page in step |
| `ScanFind.ScanFields` | internal/restic/scan.go:255-324 | the keys of a group in any order: ids are set, matches streamed or kept for later, faults reported |
| `ScanFind.ScanPending` | internal/restic/scan.go:341-357 | at the closing brace an id is required and a waiting matches array is read then |
| `ScanFind.ScanGroup` | internal/restic/scan.go:250-358 | a whole or broken group is followed, and its snapshot id is the one current when it ends |
| `ScanFind.ScanObject` | internal/restic/scan.go:325-358 | either the scan ends inside the group with the page of the document, or the group is closed and the counters move on |
| `ScanFind.ScanTail` | internal/restic/scan.go:361-375 | after the last group: complete, budget page or protocol error as the code decides |
| `ScanFind.CloseGroup` | internal/restic/scan.go:387-394 | closing a group appends its own matches as one group and leaves the earlier groups alone |
| `ScanFind.Conclude` | internal/restic/scan.go:325-330 | a scan stopped at the page boundary or by a budget returns the page of the whole document |
| `FindPages.FindPageIsSlice` | internal/restic/scan.go:235-375 | a page, flattened, is the slice of accepted matches that starts at `skip`, each listed under the id its group had when the page ended; every group is non-empty, within `limit`, and counts its matches; the counts add up; the decoded limit holds |
| `FindPages.RegroupingKeepsOrder` | internal/restic/scan.go:387-394 | grouping the matches of a page loses nothing, keeps stream order, and lists every match under the id of its group |
| `FindPages.FindWalkDelivers` | internal/mcpserver/handlers.go:705-719 | searching page by page ends as the stream ends and delivers every accepted match exactly once, a prefix when the document is malformed |
| `FindDisplay.DisplayKeepsMatches` | internal/mcpserver/handlers.go:776-788 | sorting a page for display keeps exactly the groups, by snapshot id and those of one snapshot in their order; each group keeps its own matches, by path and those of one path in their order; so the page lists the same matches under the same snapshots |
| `Basics.StableSortIsStable` | internal/mcpserver/handlers.go:783-787 | sorting keeps the order of elements it does not tell apart |
| `Basics.StringLessIsLexicographic` | internal/restic/parse.go:157-162 | the order on strings is the lexicographic one |
| `FindDisplay.SearchAnswers` | internal/mcpserver/handlers.go:690-719 | every answer for an offset and a limit is the page of the walk for that offset, displayed, with its count and flags |
| `FindDisplay.SearchDelivers` | internal/mcpserver/handlers.go:690-719 | a client that searches to the end is shown, over all its displayed pages, every accepted match exactly as often as it was accepted, and only some of them when the document is malformed |
| `KeyOrder.KeyOrderDoesNotMatter` | internal/restic/scan.go:294-309 | wherever the keys of a well-formed group stand, the buffered and the streaming path yield the same, even when the decoded-entry limit stops them |
| `KeyOrder.FieldOrderIndependence` | internal/restic/scan.go:294-358 | two documents with the same groups and any key order give the same groups, counts and flags for every request |
| `KeyOrder.CarriedYield` | internal/restic/scan.go:417-471 | what is accepted of a list is exactly the accepted matches among its first decoded records, whatever stopped the scan, a prefix of all accepted ones, and all of them with every record counted at a normal end |
| `KeyOrder.CompleteScanCountsEverything` | internal/restic/scan.go:373-375 | a complete scan reports the true number of accepted matches and of records, and its page is all that is left after skipping |
| `KeyOrder.FindPageCanExceedItsLimit` | internal/restic/scan.go:465 | two snapshots with one match each fill a page of limit 1 with two matches |
| `ByteCuts.TailFollows` | internal/restic/scan.go:236-375 | what follows the last complete group is read only after all groups were, and adds to what they yield |
| `ByteCuts.ByteBudgetReporting` | internal/restic/scan.go:255-372 | wherever a byte ceiling cuts a list behind its last complete group the page is never complete; it is an error if and only if the cut is after the closing bracket and the page would have been complete; a page that ends earlier is unchanged |
| `ByteCuts.CutAfterListLosesThePage` | internal/restic/scan.go:361-372 | one group with one match: a complete page, the same page incomplete when the ceiling is crossed before the closing bracket, and an error when it is crossed after it |
| `ByteCuts.ByteBudgetBeforeList` | internal/restic/scan.go:225-228 | crossed before the list begins, the ceiling ends the scan as an empty incomplete page |
| `ByteCuts.WellFormedCutsRead` | internal/restic/scan.go:255-324 | a broken group with well-formed keys and matches can be read, whatever was cut off |
| `ByteCuts.CutMakesKeyOrderMatter` | internal/restic/scan.go:294-309 | cut within its matches, behind them or before them, but before its closing brace, a group with the id first and one whose matches still wait, for the id or for the brace, yield the same if and only if no match had been read or the decoded-entry limit is reached |
| `ByteCuts.KeyOrderShowsUnderCut` | internal/restic/scan.go:294-330 | the two documents, cut at any of these places, give the same answer if and only if the page would not have been complete, no match had been read, or the decoded-entry limit is reached at the group |
| `ByteCuts.CutDropsAMatch` | internal/restic/scan.go:294-309 | one match before a cut within its array is on the page with the id first and missing otherwise |
| `ByteCuts.CutDropsAWholeArray` | internal/restic/scan.go:325-340 | the same for a whole array and a whole id, cut before the closing brace |
| `FindScope.PagesAuthorizedIff` | internal/restic/scan.go:270-306 | for every document, malformed ones included: every page that can be asked for lists only matches accepted under the snapshot they are listed under if and only if every accepted match is also accepted under the ids of the later matches of its group and, when a page can list it with its group read to the end, under its final id |
| `FindScope.SteadyPagesAreAuthorized` | internal/restic/scan.go:270-306 | when no group has a snapshot key with another id after a streamed matches array, every match on every page is accepted under the snapshot it is listed under |
| `FindScope.WellFormedListsAreSteady` | internal/restic/scan.go:270-306 | groups with one snapshot key and one matches key, in any order, are such groups |
| `FindScope.GroupSettledIff` | internal/restic/scan.go:270-306 | a group read whole has tested all its matches under its final id if and only if no array with an accepted match was streamed under another |
| `FindScope.LateIDMovesMatches` | internal/restic/scan.go:270-306 | a second snapshot key after the matches lists them under an id the policy does not accept, on a complete page |
| `FindScope.SteadySearchDelivers` | internal/mcpserver/handlers.go:690-719 | a client that searches such a document to the end is shown every accepted match exactly as often as it was accepted and under the snapshot it was accepted under, and nothing else |
| `FindScope.CarriedSearchDelivers` | internal/mcpserver/handlers.go:690-719 | a client that searches a list of well-formed groups to the end is shown, under the snapshots that carry them, exactly the accepted matches: all of them at a normal end, those among the first decoded records when a budget ends the scan, none but these when it is malformed |
| `FindPages.DocumentShaped` | internal/restic/scan.go:418-438 | groups come in stream order, nothing is decoded beyond the limit, and reading a document always comes to an end |
| `BudgetReader.Reader.Read` | internal/restic/scan.go:67-91 | under any chunking the bytes handed out are a prefix within the limit; end of stream means all of it fits, a budget error that it is longer and everything up to the limit was handed out |
| `Listing.ParsedIsStrict` | internal/restic/parse.go:157-162 | with unique ids parsing keeps the snapshots and puts the later time first, and of equal times the smaller id |
| `Listing.FirstPage` | internal/mcpserver/handlers.go:203-273 | the first page is the published slice by offset and limit of everything wanted, newest first, the total is the number wanted, and a cursor carries the key of the last snapshot exactly when more is left; every time on the page is at or after the lower bound and before the upper one |
| `Listing.ListedIffWanted` | internal/mcpserver/handlers.go:206-212 | a snapshot is counted if and only if the listing holds it, its time is at or after the lower bound and before the upper one, the policy admits it, and host, tags and path of the request ask for it |
| `Listing.ExactlyTheWantedAreDelivered` | internal/mcpserver/handlers.go:203-335 | in a repository that does not change, a client that follows every cursor receives each such snapshot once and no other |
| `Listing.SnapshotsForCursor` | internal/mcpserver/handlers.go:278-335 | a continuation is the first `limit` wanted snapshots of a fresh listing with an earlier time than the marker, or the same time and a larger id, and more is reported exactly when there are others; every time on it lies in the window |
| `Listing.ZeroTimeIsNoMarker` | internal/mcpserver/handlers.go:354-362 | the marker test means sorting after the marker if and only if the marker has a non-zero time |
| `Listing.ContinuationAdvances` | internal/mcpserver/handlers.go:354-362 | a continuation goes on where its page ended if and only if the last snapshot of the page has a non-zero time |
| `Listing.ZeroTimesRepeat` | internal/mcpserver/handlers.go:325-362 | two snapshots with zero times, listed one per page: every page is the first of them, the second is never delivered, and the listing does not end |
| `Listing.TraversalIsOrdered` | internal/mcpserver/handlers.go:278-362 | however the repository changes between pages, what is delivered is in strict order and sorts after the marker, so nothing repeats and nothing is spliced in behind it |
| `Listing.TraversalIsComplete` | internal/mcpserver/handlers.go:213-362 | a snapshot visible in every listing is delivered exactly once by every finished traversal |
| `Listing.FixedRepositoryIsListedWhole` | internal/mcpserver/handlers.go:213-362 | in a repository that does not change a traversal of enough pages delivers exactly the selected snapshots, newest first, and ends |
| `Listing.RemainingAdvances` | internal/mcpserver/handlers.go:325-333 | moving the marker to the last snapshot of a page leaves exactly what the page left |
| `Coalescer.MetadataCoalescer.JoinKey` | internal/repositories/metadata.go:110-126 | a caller joins the registered call of its key or registers a new one and leads it |
| `Coalescer.MetadataCoalescer.ReleaseCall` | internal/repositories/metadata.go:128-144 | the last caller to leave an unfinished call cancels it and unregisters it if it is the registered one |
| `Coalescer.MetadataCoalescer.FinishCall` | internal/repositories/metadata.go:146-153 | the outcome is recorded, the key is unregistered whatever call it names, the channel is closed and the context cancelled |
| `Coalescer.EveryRunKeepsInv` | internal/repositories/metadata.go:110-157 | in every interleaving registered calls have waiters and are neither done nor cancelled, reference counts are the waiters, and a context is cancelled exactly when its call is done or unwanted |
| `Coalescer.LeavingDoesNotCancelOthers` | internal/repositories/metadata.go:128-144 | while anybody holds a call, its context is cancelled only if the call is done |
| `Coalescer.OutcomesAreStable` | internal/repositories/metadata.go:146-153 | a finished call keeps its key and its outcome in every later state |
| `Coalescer.DoneClosesOnce` | internal/repositories/metadata.go:146-153 | no channel is closed twice |
| `Coalescer.WaiterGetsItsOwnResult` | internal/repositories/metadata.go:193-211 | a caller that left through `done` has the outcome reported by the one leader of its own call, for its own key |
| `Coalescer.SeeingDoneGivesTheResult` | internal/repositories/metadata.go:199-206 | a caller that saw `done` has the result of its call from then on, and leaves with it |
| `RunMetadata.WaiterGetsTheResultOfItsRequest` | internal/repositories/metadata.go:171-211 | in every interleaving of accepted requests a caller that left through `done` has the outcome reported for a call that was started for exactly its repository and argument list |
| `Coalescer.QuietSystemIsEmpty` | internal/repositories/metadata.go:128-157 | once all leaders have finished no call is registered |
| `Coalescer.SharedIffNoLateFinish` | internal/repositories/metadata.go:128-157 | throughout a run everybody who waits shares its call with newcomers if and only if no leader finishes while another call is registered for its key |
| `Coalescer.CallersShareOneCall` | internal/repositories/metadata.go:110-157 | without such a late finish two callers that hold unfinished calls of one key hold the same call |
| `Coalescer.OnePerKeyIffNoStrayArrival` | internal/repositories/metadata.go:110-157 | throughout a run no key has two unfinished calls, or two that are waited for, if and only if nobody arrives while such a call of its key is not registered |
| `Coalescer.OneCallPerKey` | internal/repositories/metadata.go:110-157 | in a run that never abandons a call no key has two unfinished calls |
| `Coalescer.LateFinishSplitsCallers` | internal/repositories/metadata.go:146-157 | a run in which an abandoned call finishes late leaves two waited-for calls of the same key |
| `MetadataCache.KeyIsInjective` | internal/repositories/metadata.go:59-61 | NUL-free requests have the same key if and only if they are the same request |
| `MetadataCache.AssertArgvAllowed` | internal/restic/commands.go:304-341 | the token loop accepts exactly the allowed argument lists |
| `MetadataCache.ArgvAllowedIff` | internal/restic/commands.go:304-341 | an allowed list is a known subcommand with non-empty tokens free of control characters, none a denied flag up to the first "--" and none starting with a dash behind it |
| `MetadataCache.AcceptedArgv` | internal/restic/commands.go:304-341 | an accepted argument list starts with an allowed subcommand, holds no denied flag anywhere, and its tokens are non-empty and NUL-free |
| `MetadataCache.OldestKey` | internal/repositories/metadata.go:94-104 | the scan finds an entry no other entry is older than, or none in an empty cache |
| `MetadataCache.Cache.Get` | internal/repositories/metadata.go:63-79 | a hit is the latest result stored under the key with an age from zero up to the time to live; a stale or future entry is dropped |
| `MetadataCache.Cache.Put` | internal/repositories/metadata.go:81-108 | storing drops the expired entries, then the oldest until there is room and no others, and the size stays within the bound |
| `MetadataCache.Cache.MakeRoom` | internal/repositories/metadata.go:93-106 | evicts oldest first and no more than needed |
| `MetadataCache.CacheAnswersTheRequest` | internal/repositories/metadata.go:59-61 | what is latest under the key of an accepted request is what was last stored for exactly that repository and argument list |
| `MetadataCache.Cache.GetAnswer` | internal/repositories/metadata.go:178-191 | over any sequence of requests and at any clock a hit is the result last stored for exactly that repository and argument list, with an age from zero up to the time to live |
| `MetadataCache.Cache.PutAnswer` | internal/repositories/metadata.go:154-156 | after a result is stored it is the latest one for exactly that request, and the cache still agrees with the requests answered |
| `Slots.EveryRunConserves` | internal/repositories/registry.go:211-238 | in every interleaving both channels hold one token per holder and never exceed their capacity |
| `Slots.RunningCommandsAreBounded` | internal/repositories/registry.go:211-263 | running commands respect both bounds, and every global holder also holds the slot of its repository |
| `Slots.BusyMeansFull` | internal/repositories/registry.go:220-237 | a busy answer is given only when as many other requests hold the tested slots as there are |
| `Slots.FullMeansBusy` | internal/repositories/registry.go:213-238 | a request that meets full slots ends as busy unless it was cancelled |
| `Slots.AnswerTellsWhatHappened` | internal/repositories/registry.go:205-263 | a request ended as finished if and only if its command had been running, and as busy or cancelled because a step rejected or cancelled it |
| `Slots.NothingBlocks` | internal/repositories/registry.go:213-238 | a request that is not done can always move without waiting, and giving a slot back finds a token |
| `Slots.QuietRegistryIsFree` | internal/repositories/registry.go:211-263 | once all requests are done, rejected and cancelled ones included, all slots are free |
| `CursorStore.Store.Issue` | internal/mcpserver/cursor.go:59-79 | issuing prunes the expired entries, evicts one oldest entry if there is no room, and adds the new one |
| `CursorStore.Store.Take` | internal/mcpserver/cursor.go:81-98 | the token is consumed whatever the outcome; it succeeds only unexpired and for its own tool and repository |
| `CursorStore.Store.Prune` | internal/mcpserver/cursor.go:100-106 | exactly the expired entries go |
| `CursorStore.Store.EvictOldest` | internal/mcpserver/cursor.go:108-120 | one entry goes, and no other was older |
| `CursorStore.SizeIsBounded` | internal/mcpserver/cursor.go:73-77 | in every run the store never exceeds its bound |
| `CursorStore.TakeReturnsWhatWasIssued` | internal/mcpserver/cursor.go:81-98 | a successful take returns what was issued under its token, in its scope and before it expired |
| `CursorStore.TokensAreSingleUse` | internal/mcpserver/cursor.go:84-89 | in every run a token succeeds at most once |
| `CursorStore.TokenSurvives` | internal/mcpserver/cursor.go:59-120 | a token younger than what it found in the store survives the next `max - 1` issues unless it is taken or expires, and can then still be taken |
| `CursorStore.IssueMayEvict` | internal/mcpserver/cursor.go:73-77 | one issue may push a live token out if and only if there is no room and no live entry is older |
| `CursorStore.KeptIffYoungest` | internal/mcpserver/cursor.go:59-120 | whatever is issued and taken next, a token just issued outlasts `max - 1` issues, untaken and unexpired, if and only if it is younger than everything it found in the store |
| `CursorStore.TiesMayEvictEarly` | internal/mcpserver/cursor.go:108-120 | with equal creation times the next issue may evict the younger token although the store holds two |
| `Paths.CleanPathAccepts` | internal/policy/paths.go:29-62 | a path is accepted if and only if it is rooted, has at most 4096 characters, no slash or colon behind the root, no backslash, no control character, and no parent segment |
| `Paths.CleanPathKeepsSegments` | internal/policy/paths.go:52-61 | what it becomes is its segments that are neither empty nor ".", in order |
| `Paths.CleanPathIsCanonical` | internal/policy/paths.go:29-62 | an accepted path is "/" or its non-empty, non-"." segments, slash-separated |
| `Paths.CleanPathFixesItsResults` | internal/policy/paths.go:43-45 | cleaning fixes its own result if and only if the second byte is not a colon |
| `Paths.CleanPathRejectsItsOwnResult` | internal/policy/paths.go:43-45 | "/./:x" is accepted and becomes "/:x", which is rejected |
| `Paths.SnapshotPathsAgree` | internal/policy/paths.go:68-89 | a snapshot path is cleaned as any other path if and only if it does not look like a Windows path, or is no acceptable path without its volume and backslashes either |
| `Paths.ColonAfterRootIsDropped` | internal/policy/paths.go:75-86 | the rooted path "/:/x" is rejected as a path and becomes "/x" as a snapshot path |
| `Paths.DriveRootsDropTheVolume` | internal/policy/paths.go:68-89 | a Windows drive root means the same path whatever its volume letter, and a volume of more than one byte is rejected |
| `Paths.DriveForms` | internal/policy/paths.go:75-87 | a drive alone is the root, a path below it loses the volume with either separator, and a path relative to a drive is rejected |
| `Paths.BackslashForms` | internal/policy/paths.go:72-76 | shares are rejected in both spellings, and in a rooted path backslashes are separators |
| `Paths.ContainmentTestsAgree` | internal/mcpserver/selection.go:217-225 | the two containment tests of the code agree on all strings |
| `Paths.UnderMeansPrefix` | internal/policy/paths.go:161-170 | on canonical paths the string test means that one segment list is a prefix of the other |
| `Paths.UnderIsTransitive` | internal/policy/paths.go:161-170 | containment is transitive |
| `Paths.UnderIsAntisymmetric` | internal/policy/paths.go:161-170 | containment is antisymmetric |
| `Paths.AncestorsAreComparable` | internal/policy/paths.go:161-170 | of two ancestors of one path one contains the other |
| `Paths.CheckedRequestCoversItsSubtree` | internal/policy/paths.go:93-115 | whatever lies under a checked request is itself allowed |
| `Paths.CheckAccepts` | internal/policy/paths.go:93-115 | a request passes, cleaned, if and only if it can be cleaned and, under an allowlist, the segments of an allowed path are a prefix of its own |
| `Paths.FilterPaths` | internal/policy/paths.go:120-158 | the nested loops with their seen set return the first occurrences of all projections, in order |
| `Paths.FilterPathsIsIntersection` | internal/policy/paths.go:120-158 | with an allowlist, a path lies under a returned path if and only if it lies under a valid root and under an allowed path |
| `Paths.FilterPathsWithoutAllowlist` | internal/policy/paths.go:131-138 | without one, exactly the valid roots are returned, cleaned |
| `Paths.DistinctKeepsMembers` | internal/policy/paths.go:150-154 | nothing is returned twice and nothing is lost |
| `Paths.DistinctKeepsOrder` | internal/policy/paths.go:150-154 | what is returned stands in the order of first occurrences |
| `Selection.SnapshotVisible` | internal/policy/paths.go:271-293 | for cleaned allowed paths a snapshot is visible if and only if its host is allowlisted, where there is an allowlist, and well formed, some tag is allowlisted, where there is one, and some path lies under a root and under an allowed path, where there is one |
| `Selection.PathVisibilityIsOverlap` | internal/policy/paths.go:287-291 | the path part of visibility holds if and only if some path lies under a root and under an allowed path |
| `Selection.RequestSelectsByIntersection` | internal/mcpserver/selection.go:122-140 | a request path selects a snapshot if and only if some path lies under both the request and a root |
| `Selection.MatchesIffAsked` | internal/mcpserver/selection.go:106-136 | a request selects a snapshot if and only if its host, if given, is that of the snapshot, all its tags are among its tags, and some path lies under its path, if given, and under a root |
| `Selection.FirstPageAndCursorFilterAlike` | internal/mcpserver/handlers.go:291-298 | carrying the one allowlisted host in a cursor changes nothing about what is selected |
| `Selection.SummaryNeedsFullScope` | internal/mcpserver/selection.go:227-241 | whole-snapshot aggregates are kept under an allowlist if and only if there are roots, all valid, and every path under them is allowed |
| `Selection.PublicationStaysInScope` | internal/mcpserver/selection.go:18-38 | published paths cover exactly what lies under a root and an allowed path, exactly the allowlisted tags are published, user, parent and tree are withheld, the summary is withheld if and only if part of the snapshot is hidden, and time, id and host are untouched |
| `Freshness.BuildFreshness` | internal/mcpserver/freshness.go:54-151 | the summary holds one group per key in key order; on a newest-first list the status is, in this order, no visible snapshots, incomplete, recency only without a cadence, overdue if and only if all snapshots of some key are older than the cadence, and within cadence if and only if every key has one that is not |
| `Freshness.GroupReports` | internal/mcpserver/freshness.go:90-129 | a group reports host, sorted tags, id, time and partial visibility of its first snapshot, the number of its snapshots, the whole seconds since its first one, never negative, and a judgement exactly under a cadence |
| `Freshness.Accumulate` | internal/mcpserver/freshness.go:90-108 | the first loop opens a group at its first snapshot and counts its members |
| `Freshness.Judge` | internal/mcpserver/freshness.go:109-129 | the second loop judges every group once, the map visited in any order |
| `Freshness.SummaryIsUnique` | internal/mcpserver/freshness.go:109-130 | the result does not depend on the order in which the map was visited |
| `Freshness.CountsSumUp` | internal/mcpserver/freshness.go:104 | every snapshot is counted in exactly one group |
| `Freshness.LatestIsNewest` | internal/mcpserver/freshness.go:109-127 | on a newest-first list the latest snapshot of a group is its maximum, and the group is overdue if and only if all its snapshots are older than the cadence |
| `Freshness.GroupSharedIff` | internal/mcpserver/freshness.go:165-172 | with the non-empty tags that parsing lets through, two snapshots share a group if and only if they have the same host and the same comma-separated pieces of sorted tags, or the host of one is the host of the other, a bar, and what the other has more of joined tags |
| `Freshness.HostKeyNamesHost` | internal/mcpserver/freshness.go:165-172 | grouped by host, two snapshots share a group if and only if they have the same host |
| `Freshness.KeyNamesHostAndPieces` | internal/mcpserver/freshness.go:165-172 | without a bar in a host, two snapshots share a group if and only if they have the same host and the same pieces of tags |
| `Freshness.KeyNamesHostAndTags` | internal/mcpserver/freshness.go:165-172 | without a comma in a tag either, if and only if they have the same host and the same tags |
| `Freshness.TagsCanCollide` | internal/mcpserver/freshness.go:165-172 | the tag "x,y" and the tags "x" and "y" fall into one group |
| `Freshness.HostsCanCollide` | internal/mcpserver/freshness.go:165-172 | the host "a", bar, "b" with the tag "c", and the host "a" with the tag "b", bar, "c" fall into one group |
| `CappedBuffer.Buffer.Write` | internal/restic/runner.go:326-355 | the buffer holds the first `limit` bytes ever written, and the callback runs at most once, exactly when more was written or an empty write met a full buffer |
| `CappedBuffer.EmptyWriteFires` | internal/restic/runner.go:332-341 | after an output of exactly the limit an empty write fires the callback, and nothing was lost |

## Left out

- Process execution, signals, timeouts, the audit log, MCP registration, error envelopes and configuration: operating-system behaviour or plumbing.
- The bytes of JSON and the line scanner: a stream is a sequence of decoded lines or tokens with an optional cut; the raw byte counter of a scan is not modelled, and error causes are collapsed to a protocol error.
- The default of 16 MiB for an unset byte budget: the byte budget appears in the scans only as the place where it cuts the stream, and in `BudgetReader` as a parameter.
- Sanitising and redaction: treated as the identity on names, paths and tags. Mode bits and modification times of entries are not carried.
- Strings are sequences of characters; the length limits on paths and hosts count characters where the code counts bytes.
- `path.Clean`: modelled by its documented result on rooted paths without parent segments, which is all that `CleanPath` passes to it.
- Times and durations are integers and time windows half-open integer intervals; RFC 3339 text and overflow of durations are not modelled.
- `sort.SliceStable` and `sort.Slice`: modelled as a stable insertion sort with a proof that it sorts and rearranges.
- Coalescer.MetadataCoalescer.JoinKey: call pointers are indices into a table of all calls ever made, so the model has no memory reuse; the shared context is the flag saying whether it is cancelled.
- Coalescer.MetadataCoalescer.FinishCall: storing the result in the cache happens after the lock is given up and is modelled separately, by `MetadataCache.Cache.Put`.
- CursorStore.Store.Issue: takes a fresh token as a parameter in place of random bytes; a failing random source is not modelled.
- Freshness.BuildFreshness: notes, the observed-at text and the hidden-scope flags are not modelled, nor is a latest time that cannot be read back.
- Selection.PublicationStaysInScope: the summary record is one opaque value, and the program version is not carried.
- Slots.EveryRunConserves: the two channels are counters in a step system, so the order in which the runtime serves waiting goroutines does not appear; it cannot matter, because no step waits.
- Listing.FirstPage: freshness data, the time-window text and the metadata observation in the response are not modelled.
- The find accept callback, snapshot resolution for `latest`, and the stats tool: single-branch checks around the functions modelled here.
