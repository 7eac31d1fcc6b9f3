# Verified models of the cross-referencer, the client protocols and the account store

This Dafny project models five self-contained pieces of the repository and proves what they promise.

1. **The Word cross-referencer** (`manuscript_tools.py`). It reads the bibliography of a manuscript, puts a bookmark on
   every entry and turns citation tokens such as `[1, 3-5]` into runs and internal hyperlinks. `Citations`, `WordTree`,
   `Linker` and `Crossref` say on values what the tool makes of a document; `CitationScan`, `References` and
   `WordElements` are the tool's own loops, over mutable elements, proved to compute exactly that. `LinkerText`,
   `TokenSpans`, `LinkPairs`, `RunFormat`, `CrossrefTheorems`, `CrossrefReport`, `LinkTargets` and `LostBookmarks` hold
   the results about paragraphs and whole documents, `CitationNumbers` says which numbers a token names,
   `ReferenceEntries` which paragraphs form an entry. Bookmarks and hyperlinks have the shape of sections 17.13.6 and
   17.16.22 of ECMA-376 Part 1.
2. **Three browser protocols** (`chrome-shot/nexahub-index.js`): the single-flight token refresh of the response
   interceptor (`TokenRefresh`, `TokenOutcomes`), the subscriptions store (`Subscriptions`) and the announcement popups
   (`Popups`). Each is a step function over asynchronous events that arrive in any order, results about all runs, and a
   class whose methods are the script's callbacks.
3. **Batched eager loading** (`sub2api/backend/ent/account_query.go`): `EagerJoin` says which neighbours each node should
   get, `EagerLoad` has the loaders with their maps and edge assignments, `EagerQuery` the queries with their selections.
4. **Bulk create** (`sub2api/backend/ent/account_create.go`): `BulkCreate` is the recursive chain of mutators and hooks,
   `BulkContents`, `BulkBatches` and `BulkErrors` what its batches hold, how many there are and which error it reports,
   `BulkSave` the arrays, mutation objects and closures that run it.
5. **The audit gate** (`sub2api/tools/check_pnpm_audit_exceptions.py`): `ExceptionList` and `ExceptionRecords` (the line
   parser), `AuditFindings`, `AuditEntries` and `AuditOrder` (the two report layouts), `AuditGate`, `GateRules` and
   `GateProblems` (the decision and its complaints).

`PyText` holds the string primitives of the Python tools. `dafny verify dfyconfig.toml` checks everything.

## How to read the results

- The cross-referencer's theorems hold for any `Reading` (heading test, label test, completeness test) that is
  `Reasonable`; `References.StandardIsReasonable` shows that the tool's own is.
- Visible text is the concatenated `w:t` text, as the tool's own verifier compares it.
- A database or network answer is an input. Where the code relies on the answer satisfying the query, the theorem says
  so, and says what happens otherwise when the code handles it.
- Methods of classes carry `modifies` and are tied to the step or value functions; the results are lemmas about those
  functions.

## Where the code does not keep a promise

Each has a failing input, next to the exact condition under which the promise holds.

- Splitting a run drops every child but its properties, so text outside the run's one `w:t` is lost
  (`LinkerText.TextCanBeLost`; exact condition in `LinkerText.TextKept` and `CrossrefTheorems.VisibleText`). A bookmark
  in a split run is lost too, so an old anchor can start to dangle (`LostBookmarks.LinkDangles`, and with the tool's own
  reading `LostBookmarks.LinkDanglesHere`; exact condition in `LinkTargets.LinksResolveExactly`).
- A popup can be replaced by a delayed timer although nobody dismissed it (`Popups.TimerReplacesPopup`). A timer is due
  while a popup is shown exactly when a fetch brings one up between a dismissal and its timer
  (`Popups.TimerMeetsPopup`); in all other runs popups leave the screen only by dismissal or reset (`Popups.CalmRun`).
- The subscriptions store can go on showing that it is loading although nothing is under way, because a clear forgets the
  pending fetch but not the flag (`Subscriptions.LoadingStuck`; exactly when is stated in
  `Subscriptions.LoadingExactly`).
- Bulk create is not all-or-nothing when a later builder's hook changes the outcome (`BulkBatches.HalfDone`; exact
  condition in `BulkCreate.AllOrNothing`).
- It can write the same accounts more than once: for every combination of repeated calls (`BulkBatches.TwoBatches`), or
  when a hook tries again after a later failure (`BulkBatches.RetriedBatch`). `BulkBatches.NeverTwiceExactly` says when no
  database can make it do so, `BulkBatches.ConstantAnswer` how many batches there are, and hooks that never call again
  are always safe (`BulkBatches.AtMostOneWrite`).
- It writes fields that were never checked when a hook passes on another mutation, because the check runs before the
  mutation is adopted (`BulkBatches.UncheckedWrite`; exact conditions in `BulkContents.WrittenSoundExactly` and
  `BulkContents.CheckedIsWritten`).
- The gate's comments say a numeric `source` is accepted; as the only title it makes the tool raise
  (`AuditFindings.NumericSourceRaises`; exact condition in `AuditFindings.ReadsExactly`).
- The gate depends on the order of the findings, because the first severity seen for a key is the one compared
  (`AuditGate.SwappedFindings`; a report passes in every order exactly under the condition of
  `AuditGate.OrderOfFindings`).
- Eagerly loaded groups come in the order of all accounts' rows together (`EagerJoin.OrderIsShared`), which need not be
  the account's own (`EagerJoin.OrderTurned`; exact condition in `EagerJoin.OwnOrderExactly`, and a way to meet it in
  `EagerJoin.SortedRowsKeepOrder`).

## Model

| member | source | states |
|---|---|---|
| PyText.PyIntDecInt | manuscript_tools.py:181-190 | a bookmark id written by the tool is read back as the same integer by the id scan |
| Citations.MatchShape | manuscript_tools.py:138-138 | the hand-written scanner accepts exactly the strings of the bracket pattern |
| Citations.MatchLocal | manuscript_tools.py:244-249 | a token is recognised from its own characters alone |
| Citations.RangeMembers | manuscript_tools.py:128-132 | a range lists exactly the numbers between its ends, in order, whichever end is larger |
| Citations.FoundJoin | manuscript_tools.py:141-145 | joining texts loses no token of either part, counted for every reader, also per token spelling |
| Citations.PiecesCut | manuscript_tools.py:242-260 | cutting a run's text loses no character, and the citation pieces are exactly the linkable tokens, in order |
| Citations.SegmentsCut | manuscript_tools.py:216-230 | cutting a token at its digit groups loses no character and alternates digits and gaps |
| Citations.SegmentInert | manuscript_tools.py:216-230 | no piece of a cut token is itself a token, so the nodes just created are not split again |
| CitationScan.FindMatches | manuscript_tools.py:242-246 | the scan loop returns all matches of the text, left to right, not overlapping |
| CitationScan.CutFromMatches | manuscript_tools.py:243-260 | cutting at the match offsets with the last-position variable is cutting at the wanted tokens |
| CitationScan.CutPieces | manuscript_tools.py:242-260 | the loop's pieces and change count are the specified cut and the number of linkable tokens |
| CitationScan.ParseToken | manuscript_tools.py:120-133 | the loop over comma-separated parts returns the numbers the token names |
| CitationNumbers.NumsExactly | manuscript_tools.py:120-133 | a token names n if and only if one of its comma-separated parts, stripped, is a numeral of n or two numerals with a dash between them that enclose n |
| CitationNumbers.PartNumsExactly | manuscript_tools.py:125-132 | the same for one part |
| References.StandardIsReasonable | manuscript_tools.py:65-80 | the tool's heading and label tests meet what the document theorems need |
| References.FindReferences | manuscript_tools.py:65-117 | the loops return the specified heading and entries |
| References.CollectEntries | manuscript_tools.py:73-116 | the loop's `current` and `sequential_num` follow the numbering state machine |
| References.TextConserved | manuscript_tools.py:76-116 | the entries, joined by spaces, carry exactly the stripped non-blank paragraphs after the heading |
| References.EntriesNumbered | manuscript_tools.py:76-116 | entries stand at strictly increasing paragraphs, and an automatically numbered entry is above all earlier numbers |
| References.AutomaticNumbers | manuscript_tools.py:90-99 | without written labels the entries are numbered 1..k |
| ReferenceEntries.OpenedExactly | manuscript_tools.py:83-115 | a paragraph opens an entry if and only if it has a written number, it is the first that is not blank, or the entry before it, as joined so far, is complete |
| ReferenceEntries.EntriesExactly | manuscript_tools.py:76-116 | there is one entry for every such paragraph, with all non-blank paragraphs up to the next one, stripped and joined by single spaces |
| ReferenceEntries.NumbersExactly | manuscript_tools.py:83-115 | an entry opened by a written number has that number, any other the number after the largest before it |
| ReferenceEntries.OneEach | manuscript_tools.py:90-115 | when no paragraph has a number and every one is complete, each non-blank paragraph is an entry of its own, numbered 1, 2, 3 and so on |
| ReferenceEntries.LabelExactly | manuscript_tools.py:78-82 | a paragraph has a written number if and only if it starts with digits in brackets, or with digits and a dot or bracket, and goes on |
| CrossrefReport.IndexLast | manuscript_tools.py:298-298 | of several entries with one number the last is the one it stands for |
| CrossrefReport.NumbersRead | manuscript_tools.py:287-298 | the numbers of a document are those of the entries behind its first heading |
| CrossrefReport.ReportExactly | manuscript_tools.py:298-340 | the three counts: numbers with an entry, those whose entry had no bookmark, and linkable tokens in the runs before the heading |
| CrossrefReport.IdsExactly | manuscript_tools.py:181-318 | the k-th new id is one more than the greatest id of the document, or than 0, and the number of bookmarks added before it |
| References.IndexInjective | manuscript_tools.py:302-302 | different numbers point to different paragraphs |
| Linker.LinkTreeStable | manuscript_tools.py:328-340 | after a walk no reachable single-text run holds a fully available citation, and a second walk returns the same tree |
| Linker.SplitRunInert | manuscript_tools.py:233-271 | everything a split inserts is passed over unchanged when the walk meets it again |
| Linker.SplitRunHead | manuscript_tools.py:335-337 | what replaces a run starts with a run, so skipping one index never skips an unvisited hyperlink |
| LinkerText.TextKept | manuscript_tools.py:199-271 | the walk never adds text and keeps a paragraph's text if and only if every run it splits has no text besides its one `w:t` |
| LinkerText.TextCanBeLost | manuscript_tools.py:199-207 | a run with a linkable token and one further element that shows text always loses that text |
| LinkerText.CountVisible | manuscript_tools.py:136-154 | a token seen inside one run is seen in the joined paragraph text |
| TokenSpans.SpansHold | manuscript_tools.py:233-242 | the spans are those of the reachable runs with one text, each where that text stands in the joined text |
| TokenSpans.TreeTallied | manuscript_tools.py:141-145 | for every reader: the tokens counted inside runs are all tokens of the joined text if and only if those spans cover every one of them |
| TokenSpans.JoinExact | manuscript_tools.py:141-145 | joining two texts makes no new token if and only if none runs across the joint |
| TokenSpans.LinkerAgreesWithAudit | manuscript_tools.py:136-154 | per paragraph linked tokens never exceed audited ones, per spelling too; equal if and only if every audited token lies, in the joined text, inside the one text of a run the walk reaches, and names only available numbers |
| LinkerText.NothingMissing | manuscript_tools.py:163-172 | when the audit misses no number, every audited token inside one run is linked |
| LinkerText.CountZeroUnchanged | manuscript_tools.py:233-258 | a paragraph without linkable tokens is returned untouched |
| LinkerText.ChangedShowsBracket | manuscript_tools.py:233-271 | a paragraph the walk changes shows a bracket before and after, so it can become no heading |
| LinkPairs.LinksMade | manuscript_tools.py:216-230 | a paragraph without hyperlinks gets, in order, one for each digit group of its linkable tokens whose number has a reference; it shows the group and has the anchor of that very number |
| LinkPairs.LinksExactly | manuscript_tools.py:210-230 | in any paragraph these links stand in place of the runs that are split, and all others are as they were |
| LinkPairs.DocumentLinks | manuscript_tools.py:321-340 | before the heading every paragraph has exactly those links, behind it those of the source |
| LinkPairs.LinkLeads | manuscript_tools.py:305-318 | a link that shows a number leads to a bookmark in the entry of that number |
| LinkPairs.LinkedTokens | manuscript_tools.py:247-250 | a token is linked if and only if the audit lists it and all the numbers it names have a reference |
| LinkPairs.TextExactly | manuscript_tools.py:199-207 | what a paragraph shows after the walk: a split run its one text, all else as before |
| RunFormat.LookExactly | manuscript_tools.py:199-207 | every character that stays keeps the attributes and properties of its run |
| RunFormat.LookKept | manuscript_tools.py:199-207 | a paragraph that keeps its text looks the same, character by character |
| RunFormat.SpacesMarked | manuscript_tools.py:194-197 | the walk makes no text whose space at an edge is not marked to be preserved |
| LinkerSteps.RunStep | manuscript_tools.py:328-340 | one turn of the index loop at a run: the first new node is passed, the rest of the nodes are met next, and the links still to come drop by those made |
| LinkerSteps.TreeStep | manuscript_tools.py:338-340 | one turn at any other child: it is left for the stack, and links and sizes split accordingly |
| Crossref.BookmarkAdded | manuscript_tools.py:274-282 | a bookmark is found again, adds no text, has one start and one end with one id in its paragraph, and removing the two restores the paragraph |
| Crossref.IndexPlaced | manuscript_tools.py:296-302 | every number points behind the heading, and no two to one paragraph |
| Crossref.PlaceClosed | manuscript_tools.py:305-318 | the bookmark loop, in closed form: every entry's paragraph is decided as it was in the source document |
| Crossref.AddedGrows | manuscript_tools.py:315-318 | ids are handed out in strictly increasing order |
| Crossref.ReadFromTexts | manuscript_tools.py:291-297 | skipping blank paragraphs finds the same heading, and the list depends on nothing before it |
| CrossrefTheorems.OutputParagraphs | manuscript_tools.py:291-340 | where every output paragraph comes from: walked before the heading, bookmarked entry, or unchanged |
| CrossrefTheorems.VisibleParagraph | manuscript_tools.py:373-377 | no paragraph gains text; one before the heading keeps its text if and only if every run split in it has no other text, and reference paragraphs always keep theirs |
| CrossrefTheorems.VisibleText | manuscript_tools.py:373-377 | the document's text is identical if and only if every run split before the heading has no text besides its one `w:t` |
| CrossrefTheorems.SamePlan | manuscript_tools.py:291-303 | a second run reads the same heading and numbers as the first |
| CrossrefTheorems.RunTwice | manuscript_tools.py:285-340 | cross-referencing is idempotent for every document: a second run adds nothing and returns the same document |
| CrossrefTheorems.AllBookmarked | manuscript_tools.py:305-318 | every number ends up bookmarked in its own entry |
| CrossrefTheorems.FreshIds | manuscript_tools.py:181-190 | new bookmark ids exceed all existing ones and are pairwise distinct |
| LinkTargets.LinkTreeBookmarks | manuscript_tools.py:199-207 | a bookmark of a paragraph is there after the walk if and only if no split run held it |
| LinkTargets.LinkTreeEvery | manuscript_tools.py:210-230 | the anchors after the walk are those that no split run held and names of available references |
| LinkTargets.LinksResolveExactly | manuscript_tools.py:378-389 | the output has no bad `_Ref_` anchor if and only if every anchor that no split run held has a bookmark that no split run held, or the name of a reference |
| LinkTargets.NoDanglingLinks | manuscript_tools.py:378-389 | if the source has no bad `_Ref_` anchor and no split run holds the last bookmark of an anchor in use, the output has none |
| LostBookmarks.BookmarkLost | manuscript_tools.py:199-207 | a paragraph whose split run holds a bookmark has it before the walk and not after |
| LostBookmarks.LinkDangles | manuscript_tools.py:378-389 | a family of documents whose anchors all resolve before the run and not after it |
| LostBookmarks.LinkDanglesHere | manuscript_tools.py:378-389 | one of them, with the tool's own reading of headings and labels |
| CrossrefTheorems.LinksAgainstAudit | manuscript_tools.py:136-154 | reported links never exceed audited citations; equal if and only if before the heading every audited token lies inside one reachable run and names only available numbers |
| WordElements.Element.Replace | manuscript_tools.py:268-270 | removing a child and inserting nodes one by one at growing offsets puts exactly them where it stood and moves no other child |
| WordElements.Element.Remove | manuscript_tools.py:268-268 | removing drops the first occurrence and keeps the order of the others |
| WordElements.Element.Surround | manuscript_tools.py:280-282 | the start goes behind paragraph properties, the end to the end of the list |
| WordElements.Document.CopyElement | manuscript_tools.py:200-200 | a deep copy is new and spells out the same tree |
| WordElements.Document.CloneRun | manuscript_tools.py:199-207 | the clone keeps attributes and properties and has the text as its only other child |
| WordElements.Document.HyperlinkRun | manuscript_tools.py:210-213 | a new hyperlink with the anchor around a clone |
| WordElements.Document.CitationNodes | manuscript_tools.py:216-230 | the loop over digit groups builds exactly the nodes of the token, with a hyperlink for each group that names a reference, to that very one |
| WordElements.Document.SplitRunForCitations | manuscript_tools.py:233-271 | in place, the run is replaced by exactly its cut, other children stay, and the count is the number of linkable tokens |
| WordElements.Document.WalkChildren | manuscript_tools.py:333-340 | the index loop over the growing child list ends, links all tokens of direct runs, and pushes every other child once |
| WordElements.Document.WalkTop | manuscript_tools.py:331-340 | one pop of the stack strictly reduces the size of the linked trees that wait and accounts for every link |
| WordElements.Document.WalkParagraph | manuscript_tools.py:328-340 | the worklist ends, and the paragraph's elements have become the specified linked tree with the specified count |
| WordElements.Document.ReadText | manuscript_tools.py:46-47 | the search for `w:t` elements returns the tree's visible text |
| WordElements.Document.FindBookmark | manuscript_tools.py:309-313 | the search below a paragraph finds a bookmark of that name if there is one |
| WordElements.Document.ReadIds | manuscript_tools.py:182-190 | the scan returns the integer ids of all bookmark starts and ends |
| WordElements.Document.AddReferenceBookmark | manuscript_tools.py:274-282 | in place, the paragraph gets the specified bookmark and no other element changes |
| WordElements.Document.PlaceBookmarks | manuscript_tools.py:305-318 | the loop over sorted numbers leaves the specified paragraphs and count |
| WordElements.Document.LinkParagraphs | manuscript_tools.py:320-340 | the paragraphs before the heading are walked and no others |
| WordElements.Document.ReadPlan | manuscript_tools.py:291-303 | heading, number index and first free id are read from the unchanged document |
| WordElements.Document.CrossReferenceInPlace | manuscript_tools.py:285-340 | the whole tool, in place, leaves elements that spell out the specified document with the reported counts, or the unchanged document without a heading |
| WordElements.Document.constructor | manuscript_tools.py:287-290 | parsing gives one element for each node of the document, with nothing shared |
| TokenRefresh.StepInv | chrome-shot/nexahub-index.js:2-2 | every step keeps: one refresh at most, the waiter list is exactly the waiting requests, send counts match flags, nobody is released twice |
| TokenRefresh.RunInv | chrome-shot/nexahub-index.js:2-2 | the invariant holds in every state of every interleaving |
| TokenRefresh.RunSafe | chrome-shot/nexahub-index.js:2-2 | at most one refresh in flight, no waiter without one, and no request on the wire more than twice |
| TokenRefresh.RefreshEndsReleases | chrome-shot/nexahub-index.js:2-2 | the end of a refresh releases all waiters in order, each once, retried with the new token or rejected, and touches no other request |
| TokenRefresh.WaiterStep | chrome-shot/nexahub-index.js:2-2 | a waiter goes on waiting for its refresh or has just been released by it, with its outcome |
| TokenRefresh.WaiterFate | chrome-shot/nexahub-index.js:2-2 | over a run a waiter either still waits behind its refresh or was released exactly once, by it |
| TokenRefresh.StepWork | chrome-shot/nexahub-index.js:2-2 | every answer and every end of a refresh reduces the work left; only a new request adds, three |
| TokenRefresh.RunBounded | chrome-shot/nexahub-index.js:2-2 | a run has at most three answers for each request issued |
| TokenRefresh.Quiescent | chrome-shot/nexahub-index.js:2-2 | when nothing is outstanding every request is settled: no wake-up is lost |
| TokenRefresh.Client.Unauthorized | chrome-shot/nexahub-index.js:2-2 | the interceptor's 401 branch does exactly the step and keeps the invariant |
| TokenRefresh.Client.WakeWaiters | chrome-shot/nexahub-index.js:2-2 | `Ue` calls the waiters in order with the token and empties the list |
| TokenRefresh.Client.RefreshEnded | chrome-shot/nexahub-index.js:2-2 | the leader's continuation does exactly the step and keeps the invariant |
| TokenOutcomes.StepStores | chrome-shot/nexahub-index.js:2-2 | which tokens every event stores: those granted, none after a denial or a 401 that ends the session, and those of a login or logout; no other event changes them |
| TokenOutcomes.StoredPair | chrome-shot/nexahub-index.js:2-2 | over every run the stored pair is that of the last such event |
| TokenOutcomes.SentWithStored | chrome-shot/nexahub-index.js:2-2 | everything an event sends carries the access token stored behind it |
| TokenOutcomes.RespondOutcome | chrome-shot/nexahub-index.js:2-2 | what each kind of answer does to its request, and that it touches no other |
| TokenOutcomes.SettledExactly | chrome-shot/nexahub-index.js:2-2 | over every run a request is settled with success if and only if a success was its answer |
| Subscriptions.StepInv | chrome-shot/nexahub-index.js:2-2 | every step keeps: stored generations increase, and the pending promise is the newest fetch still under way |
| Subscriptions.StoredIffCurrent | chrome-shot/nexahub-index.js:2-2 | an answer is stored if and only if no clear, no forced call, and no unforced call that found neither a fresh list nor a pending fetch, came between the call and the answer |
| Subscriptions.StoredInOrder | chrome-shot/nexahub-index.js:2-2 | over every run the generations of stored answers strictly increase |
| Subscriptions.ListIsLastStored | chrome-shot/nexahub-index.js:2-2 | the list shown is empty after a clear and otherwise the last stored answer, which no clear has followed |
| Subscriptions.PendingIsShared | chrome-shot/nexahub-index.js:2-2 | while a fetch is pending an unforced caller starts none and gets the newest |
| Subscriptions.FetchStarts | chrome-shot/nexahub-index.js:2-2 | a forced call always starts a fetch, also over a pending one; an unforced call does if and only if nothing is pending and the list is not fresh |
| Subscriptions.CutOff | chrome-shot/nexahub-index.js:2-2 | over every run, no answer to a fetch is stored when a clear or a forced call came between |
| Subscriptions.LoadingExactly | chrome-shot/nexahub-index.js:2-2 | the loading flag is on if and only if a fetch is pending, or a clear has dropped one and none has been started since |
| Subscriptions.LoadingStuck | chrome-shot/nexahub-index.js:2-2 | a run after which the flag is on and nothing is under way |
| Subscriptions.Store.FetchActive | chrome-shot/nexahub-index.js:2-2 | a forced caller gets the promise of a new fetch; an unforced one the fresh list, else the pending promise, else that of a new fetch |
| Subscriptions.Store.OnAnswer | chrome-shot/nexahub-index.js:2-2 | an answer's continuation does exactly the step |
| Popups.StepInv | chrome-shot/nexahub-index.js:2-2 | every step keeps: distinct queue, queue disjoint from the seen-set, a waiting popup has something to bring it up |
| Popups.ShownOnce | chrome-shot/nexahub-index.js:2-2 | between resets no announcement is shown twice or waits twice, none waits that was shown, and none waits for ever |
| Popups.SeenExactly | chrome-shot/nexahub-index.js:2-2 | over every run an announcement counts as shown if and only if it was put on the screen and no reset has come since |
| Popups.FetchBrings | chrome-shot/nexahub-index.js:2-2 | after a fetch an announcement is shown or waits if and only if it did before, or is an unread popup among the first twenty and has not been shown |
| Popups.FetchExactly | chrome-shot/nexahub-index.js:2-2 | what a fetch queues and shows: new unread popups behind those that wait, each once and in the order of the answer; the first of all comes on a free screen if and only if the answer has an unread popup not shown before |
| Popups.ScreenExactly | chrome-shot/nexahub-index.js:2-2 | of the other events a timer puts up the next that waits, or clears the screen when none does; the rest put up nothing |
| Popups.TimersExactly | chrome-shot/nexahub-index.js:2-2 | over every run the timers due are the dismissals that left something waiting, less the timers that have fired |
| Popups.ShownInOrder | chrome-shot/nexahub-index.js:2-2 | over every run, what waits behind another is not shown before it, unless a reset comes first |
| Popups.MarkExactly | chrome-shot/nexahub-index.js:2-2 | a read mark changes the first entry with the id and no other |
| Popups.LeavesScreen | chrome-shot/nexahub-index.js:2-2 | in one step a popup leaves the screen if and only if it is dismissed, the store is reset or a timer fires |
| Popups.TimerMeetsPopup | chrome-shot/nexahub-index.js:2-2 | some state of a run has a timer due while a popup is shown if and only if some fetch brings up a popup between a dismissal and its timer |
| Popups.CalmRun | chrome-shot/nexahub-index.js:2-2 | in a run without such a fetch at most one timer is due, none fires while a popup is shown, and popups leave the screen only by dismissal or reset |
| Popups.TimerReplacesPopup | chrome-shot/nexahub-index.js:2-2 | a run in which a timer takes away a popup nobody dismissed |
| Popups.Store.SyncQueue | chrome-shot/nexahub-index.js:2-2 | the filter and enqueue loops compute the specified queue and show the head when the screen is free |
| Popups.Store.OnTimer | chrome-shot/nexahub-index.js:2-2 | a late timer does exactly the step |
| EagerJoin.DistinctKeysExactly | sub2api/backend/ent/account_query.go:689-699 | the id list of a foreign-key load has no duplicates and is exactly the set of non-null keys |
| EagerJoin.BatchIsLookup | sub2api/backend/ent/account_query.go:703-716 | one query for all keys finds for every key what a lookup of that key in the table would find |
| EagerJoin.EachAttachedOnce | sub2api/backend/ent/account_query.go:769-781 | over all nodes every neighbour of a one-to-many load is attached exactly once |
| EagerJoin.MineInOrder | sub2api/backend/ent/account_query.go:770-781 | the rows of a key are all those that have it, in the order in which they come |
| EagerJoin.ShareIsMine | sub2api/backend/ent/account_query.go:755-781 | with distinct ids every node gets exactly the neighbours that name it |
| EagerJoin.ShareExactly | sub2api/backend/ent/account_query.go:755-781 | of several nodes with one id the last gets its rows and the others get nothing |
| EagerJoin.GroupsAreJoin | sub2api/backend/ent/account_query.go:657-686 | an account has exactly the groups it is joined with, each once, whatever repeats and order the rows have |
| EagerJoin.GroupsShown | sub2api/backend/ent/account_query.go:664-686 | every group is attached as the first row with its id shows it |
| EagerJoin.OrderIsShared | sub2api/backend/ent/account_query.go:664-686 | for all rows and accounts, an account's groups come strictly in the order of their first rows over all accounts |
| EagerJoin.OwnOrderExactly | sub2api/backend/ent/account_query.go:664-686 | that is the order of the account's own rows if and only if every two of its groups have their first rows in the same order there |
| EagerJoin.SortedRowsKeepOrder | sub2api/backend/ent/account_query.go:664-686 | rows sorted by any strict order on groups give every account its own order |
| EagerJoin.OrderTurned | sub2api/backend/ent/account_query.go:664-672 | one row of another account turns two groups round |
| EagerLoad.HeldIsJoined | sub2api/backend/ent/account_query.go:664-686 | the map from groups to account objects holds a node if and only if its account is joined, for the last node of an id |
| EagerLoad.LoadGroups | sub2api/backend/ent/account_query.go:627-687 | every node ends with its joined groups, and the unexpected-node error is unreachable |
| EagerLoad.ReadGroups | sub2api/backend/ent/account_query.go:661-672 | reading the rows appends a group on its first row only and collects all its holders |
| EagerLoad.CollectKeys | sub2api/backend/ent/account_query.go:689-699 | the loop returns the distinct keys and, for each, its nodes in order |
| EagerLoad.LoadProxy | sub2api/backend/ent/account_query.go:688-719 | each node gets exactly the proxy its key names or stays untouched; the error occurs if and only if a row was not asked for |
| EagerLoad.LoadParent | sub2api/backend/ent/account_query.go:720-751 | the same for the parent account |
| EagerLoad.LoadChildren | sub2api/backend/ent/account_query.go:752-783 | each node gets exactly its children in row order; an error occurs if and only if a key is null or was not asked for |
| EagerLoad.LoadUsageLogs | sub2api/backend/ent/account_query.go:798-813 | the same for usage logs, once they are read |
| EagerLoad.LoadAccountGroups | sub2api/backend/ent/account_query.go:828-843 | the same for group memberships, once they are read |
| EagerQuery.ColumnsKeep | sub2api/backend/ent/account_query.go:866-882 | for every selection the id comes first, the keys of requested edges are read, and nothing else is added |
| EagerQuery.AccountQuery.QuerySpec | sub2api/backend/ent/account_query.go:858-882 | the loop builds the specified columns |
| EagerQuery.AccountQuery.FetchChildren | sub2api/backend/ent/account_query.go:762-783 | whatever the nested query selects, the children found are those of the stored rows |
| EagerQuery.LogsRead | sub2api/backend/ent/account_query.go:795-797 | with the key column selected, or none, a usage log's id and key are read as stored; without it every key is read as 0 |
| EagerQuery.EachShare | sub2api/backend/ent/account_query.go:825-843 | reading the rows and then sharing them out is sharing out the stored rows and reading those, when reading keeps the key |
| EagerQuery.SecondIsId | sub2api/backend/ent/account_query.go:642-666 | whatever the group query selects, the second value of a result row is the group's id |
| EagerQuery.GroupQuery.Fetch | sub2api/backend/ent/account_query.go:651-672 | the rows, read from their values by position and by column, keep account and group id, and the key taken by position is the id of the group |
| EagerQuery.ScanGroups | sub2api/backend/ent/account_query.go:657-686 | reading the groups and then joining is joining the stored rows and reading those, when reading keeps the id |
| EagerQuery.AccountQuery.FetchGroups | sub2api/backend/ent/account_query.go:627-687 | whatever the group query selects, each node gets its stored groups, read as far as they are selected |
| EagerQuery.AccountQuery.FetchProxies | sub2api/backend/ent/account_query.go:688-719 | whatever the proxy query selects, each node gets its stored proxy, read as far as it is selected |
| EagerQuery.AccountQuery.FetchUsageLogs | sub2api/backend/ent/account_query.go:784-813 | whatever the nested query selects, each node gets its stored usage logs |
| EagerQuery.AccountQuery.FetchAccountGroups | sub2api/backend/ent/account_query.go:814-843 | whatever the nested query selects, each node gets its stored memberships, read as far as they are selected |
| EagerQuery.AccountQuery.SqlAll | sub2api/backend/ent/account_query.go:550-625 | for every selection, of the query and of its nested ones, all edges are those of the stored rows, read as far as selected, and an error occurs if and only if some answer breaks its predicate |
| BulkCreate.DefaultsFill | sub2api/backend/ent/account_create.go:527-585 | with all defaults initialised every defaulted column is filled and nothing already set changes |
| BulkCreate.SoundExactly | sub2api/backend/ent/account_create.go:588-662 | the checks pass if and only if every required column is present and no validator refuses |
| BulkCreate.PreparedFault | sub2api/backend/ent/account_create.go:2106-2114 | after defaults only name, platform and type can be found missing |
| BulkCreate.WellNested | sub2api/backend/ent/account_create.go:2095-2152 | for any hooks: they are left in reverse order, all are open at every write, and every write follows a passed check of every builder |
| BulkCreate.WritesFull | sub2api/backend/ent/account_create.go:2115-2125 | for any hooks, no batch is written that lacks a builder's spec |
| BulkCreate.OneBatch | sub2api/backend/ent/account_create.go:2110-2128 | with hooks that call next at most once: one batch if and only if nothing stops the chain, with one spec per builder in builder order |
| BulkCreate.DoneExactly | sub2api/backend/ent/account_create.go:2131-2140 | a mutation is marked done if and only if the call reaches it and everything after it succeeds, and its node then has the contributed fields and the given id |
| BulkCreate.AllOrNothing | sub2api/backend/ent/account_create.go:2095-2152 | with hooks that call next exactly once, all or none are marked if and only if no builder but the first turns the outcome |
| BulkCreate.TransparentSave | sub2api/backend/ent/account_create.go:2095-2152 | with hooks that only look or edit, success, stored rows and marked mutations coincide, and nodes carry the database's ids |
| BulkContents.WritesContributions | sub2api/backend/ent/account_create.go:2107-2128 | for any hooks: every batch has a spec for every builder, with exactly the fields that all the builder's hooks together make of its prepared ones |
| BulkContents.CheckedBeforeWritten | sub2api/backend/ent/account_create.go:2110-2117 | for any hooks: a save that writes has checked, of every builder, the fields that reach its first copying hook |
| BulkContents.WrittenSoundExactly | sub2api/backend/ent/account_create.go:2112-2124 | for any hooks: every spec a save writes passes the checks if and only if it writes nothing or every builder's contribution does |
| BulkContents.WrittenSoundOnce | sub2api/backend/ent/account_create.go:2112-2124 | with hooks that call next at most once, writing nothing is something stopping the chain |
| BulkContents.CheckedIsWritten | sub2api/backend/ent/account_create.go:2112-2117 | a builder's checked fields are its written fields if and only if the hooks from the first copying one on leave what reaches them unchanged; without copies they always are |
| BulkContents.CheckedWritesSound | sub2api/backend/ent/account_create.go:2112-2124 | for any hooks, under that condition for all builders every write is sound |
| BulkContents.UncopiedWritesSound | sub2api/backend/ent/account_create.go:2112-2124 | so whatever hooks repeat, retry, swallow or refuse, every write is sound when none passes on a copy |
| BulkBatches.UncheckedWrite | sub2api/backend/ent/account_create.go:2112-2117 | a hook that passes on a copy gets fields written that no check accepts |
| BulkBatches.HalfDone | sub2api/backend/ent/account_create.go:2118-2140 | a hook that fails after the write leaves one mutation marked, one not, and an error over stored rows |
| BulkBatches.AtMostOneWrite | sub2api/backend/ent/account_create.go:2118-2124 | for any edits, copies, checks and answers: hooks that call next again neither after a success nor after a failure write at most one batch |
| BulkBatches.ConstantAnswer | sub2api/backend/ent/account_create.go:2118-2124 | with hooks that do not copy and a database that takes every batch, or none: how many batches are written, as a product over the hooks, and whether the save succeeds |
| BulkBatches.BatchesAtMostOne | sub2api/backend/ent/account_create.go:2118-2124 | that product is 0 if and only if a hook refuses or skips or a check fails, and at most 1 if and only if so or every hook that may call again is content with what its inner chain makes of the answer |
| BulkBatches.NeverTwiceExactly | sub2api/backend/ent/account_create.go:2118-2124 | with hooks that do not copy: no answers whatever make a save write twice, if and only if something blocks the chain or every hook that may call again is content with both outcomes |
| BulkBatches.BatchCount | sub2api/backend/ent/account_create.go:2118-2124 | when nobody fails or refuses: at most one batch if and only if some hook skips next or none repeats it |
| BulkBatches.TwoBatches | sub2api/backend/ent/account_create.go:2118-2124 | an instance: one hook that calls next twice writes the batch twice |
| BulkBatches.RetriedBatch | sub2api/backend/ent/account_create.go:2118-2124 | an instance: a hook that only retries, around one that fails after the write, stores the batch twice |
| BulkErrors.ErrorExactly | sub2api/backend/ent/account_create.go:2110-2151 | with hooks that call next at most once, for every error exactly when the save reports it: a hook refuses, or fails where nothing from further in has failed, a check misses a column, or the database answers that kind of error, and nothing further out stops the call or hides the error |
| BulkErrors.TransparentError | sub2api/backend/ent/account_create.go:2112-2128 | with hooks that only look or edit: the first faulty column of the first unsound builder, else no error after a stored batch, else the kind the database answers |
| BulkErrors.FaultFirst | sub2api/backend/ent/account_create.go:588-662 | the column a check reports is the first in the order of the checks |
| BulkErrors.ErrorsExplained | sub2api/backend/ent/account_create.go:2110-2151 | for any hooks: a hook error names a hook that refuses or fails, and a write error is the kind of an answer to one of the batches |
| BulkSave.AccountCreateBulk.constructor | sub2api/backend/ent/account_create.go:2100-2106 | the arrays start empty and every builder has its own prepared mutation |
| BulkSave.AccountCreateBulk.RunMutator | sub2api/backend/ent/account_create.go:2107-2145 | the closure with its hooks does to arrays and objects exactly what the recursive chain says |
| BulkSave.AccountCreateBulk.RunInner | sub2api/backend/ent/account_create.go:2107-2141 | check, adopt, descend and mark, in that order |
| BulkSave.AccountCreateBulk.WriteBatch | sub2api/backend/ent/account_create.go:2120-2128 | one batch of the spec array; ids go back into the specs, and the error is the kind that the database answers |
| BulkSave.AccountCreateBulk.SaveAll | sub2api/backend/ent/account_create.go:2095-2152 | the whole save equals the specified run |
| ExceptionList.ParseExceptions | sub2api/tools/check_pnpm_audit_exceptions.py:24-48 | the loop over lines returns the specified records, or raises on a record line without a colon |
| ExceptionList.DashHasText | sub2api/tools/check_pnpm_audit_exceptions.py:35-42 | a dash line always has text after the dash, so an empty record is never opened |
| ExceptionList.PlainReadsBack | sub2api/tools/check_pnpm_audit_exceptions.py:12-20 | an unquoted value is read back if and only if it is trimmed and does not look quoted |
| ExceptionList.NoiseIgnored | sub2api/tools/check_pnpm_audit_exceptions.py:30-34 | blank lines, comments, headers and lines without a colon change nothing wherever they stand |
| ExceptionList.NoiseAnywhere | sub2api/tools/check_pnpm_audit_exceptions.py:30-34 | such a line may be inserted at any position |
| ExceptionList.RaisesExactly | sub2api/tools/check_pnpm_audit_exceptions.py:35-42 | reading raises if and only if some line opens a record and has no colon |
| ExceptionRecords.RecordsExactly | sub2api/tools/check_pnpm_audit_exceptions.py:24-48 | for any lines that are read at all: one record for each line that opens one; it has a value for a key if and only if a line up to the next opening line shows the two and no later one of these has the key |
| ExceptionRecords.PairExactly | sub2api/tools/check_pnpm_audit_exceptions.py:12-20 | which key and value a line shows: they are parted at its first colon |
| ExceptionList.RoundTrip | sub2api/tools/check_pnpm_audit_exceptions.py:24-48 | reading a written list, with noise anywhere and any quoting, returns its records |
| ExceptionList.KeptAll | sub2api/tools/check_pnpm_audit_exceptions.py:24-48 | no line of a written list is itself noise |
| ExceptionList.WrittenLines | sub2api/tools/check_pnpm_audit_exceptions.py:28-30 | every line of a written list is a single line, so a file keeps the lines apart |
| AuditFindings.IterVulns | sub2api/tools/check_pnpm_audit_exceptions.py:64-112 | the loops return the findings of both layouts in order, with their titles, or raise where the specification does |
| AuditFindings.IterVia | sub2api/tools/check_pnpm_audit_exceptions.py:80-112 | ids and titles of one entry, collected side by side, give the specified findings with the joined title |
| AuditFindings.NumericSourceRaises | sub2api/tools/check_pnpm_audit_exceptions.py:96-110 | a numeric source is an accepted id but raises when it is the only title |
| AuditFindings.ReadsExactly | sub2api/tools/check_pnpm_audit_exceptions.py:78-112 | a vulnerabilities report can be read if and only if its entries are objects and every true title is a string |
| AuditEntries.FindingsExactly | sub2api/tools/check_pnpm_audit_exceptions.py:64-112 | a readable report has a finding of a package, severity and id if and only if an advisory, or an entry in the `via` of that package, shows them |
| AuditEntries.PickExactly | sub2api/tools/check_pnpm_audit_exceptions.py:51-61 | the id of an advisory is its most preferred source that is true |
| AuditEntries.FirstTrueAt | sub2api/tools/check_pnpm_audit_exceptions.py:53-61 | the most preferred source is the first that is true, or the last when none is |
| AuditEntries.ViaExactly | sub2api/tools/check_pnpm_audit_exceptions.py:84-104 | the same for an entry of `via` |
| AuditOrder.FindingsInOrder | sub2api/tools/check_pnpm_audit_exceptions.py:64-112 | how many findings a readable report has and which comes where: one for each advisory, then package by package one for each entry of `via` that has an id, with the package, severity, id and title of each |
| AuditOrder.TellersExactly | sub2api/tools/check_pnpm_audit_exceptions.py:84-111 | which entries of `via` these are: all that show an id, in the order in which they come |
| AuditOrder.JoinedExactly | sub2api/tools/check_pnpm_audit_exceptions.py:93-110 | the title of a package is its entries' titles that are true, joined by semicolons |
| AuditEntries.ReadableExactly | sub2api/tools/check_pnpm_audit_exceptions.py:64-112 | a report can be read if and only if no advisory is looked up in `cves` that cannot be indexed and every package entry is an object whose true titles are strings |
| AuditGate.BuildIndex | sub2api/tools/check_pnpm_audit_exceptions.py:151-188 | the loop indexes the first exception of every key and reports malformed and duplicate ones |
| AuditGate.CheckFindings | sub2api/tools/check_pnpm_audit_exceptions.py:190-222 | the deduplicating loop reports exactly the specified problems, and raises if and only if some severity is no string |
| AuditGate.IndexProblemsExactly | sub2api/tools/check_pnpm_audit_exceptions.py:158-188 | the index has no complaint if and only if all exceptions are well formed with distinct keys |
| AuditGate.IndexedHas | sub2api/tools/check_pnpm_audit_exceptions.py:178-188 | a key is indexed if and only if some exception has it, with one of theirs as value |
| AuditGate.VerdictExactly | sub2api/tools/check_pnpm_audit_exceptions.py:210-222 | a finding draws no complaint if and only if a matching, unexpired exception exists |
| AuditGate.JudgedExactly | sub2api/tools/check_pnpm_audit_exceptions.py:194-222 | the loop has no complaint if and only if the declarative gate holds |
| AuditGate.RunGate | sub2api/tools/check_pnpm_audit_exceptions.py:138-243 | the exit code is 0 if and only if the declarative gate holds, 1 otherwise, and the tool raises exactly where stated |
| GateRules.PassesExactly | sub2api/tools/check_pnpm_audit_exceptions.py:151-222 | in terms of records and findings: every record complete, dated and the only one of its package and advisory, and the first high or critical finding of each package and advisory allowed by one |
| GateProblems.ProblemsExactly | sub2api/tools/check_pnpm_audit_exceptions.py:151-222 | for every kind of complaint, if and only if what does the gate have it: a bad or repeated record, a finding without an id, and, for the first finding of a package and advisory, no record for it, or a first record that is for another severity or over |
| GateRules.RaisesExactly | sub2api/tools/check_pnpm_audit_exceptions.py:115-117 | the gate raises over a severity that is neither false nor a string |
| AuditGate.OrderOfExceptions | sub2api/tools/check_pnpm_audit_exceptions.py:151-188 | reordering the exceptions never changes the verdict |
| AuditGate.PassesEarlier | sub2api/tools/check_pnpm_audit_exceptions.py:219-222 | a report that passes today passes on every earlier date |
| AuditGate.OrderOfFindings | sub2api/tools/check_pnpm_audit_exceptions.py:194-222 | a report passes in every order of its findings if and only if the exceptions are well formed and every relevant finding, not only the first of its key, has an advisory id and is waived |
| AuditGate.SwappedFindings | sub2api/tools/check_pnpm_audit_exceptions.py:205-218 | of two findings with one key only the first is compared; with different severities swapping them keeps a pass if and only if the exception's severity is blank |

## Left out

- Zip archives, XML parsing and serialisation, `preserve_root_namespaces`, argument parsing, JSON printing and the
  verifier command's report: input and output.
- Decimal digits and letters outside ASCII: the Python patterns and `lower` accept them, `PyText` does not.
- Paragraphs nested in paragraphs: paragraphs are kept apart from each other, as in documents without text boxes.
- LinkerText.TextKept: run properties are taken to hold no `w:t`, as in schema-valid documents.
- WordElements.Document.constructor: a paragraph element is never itself a run.
- Bookmark ids outside the document body, and comments or processing instructions among the nodes.
- The audit command's printed lists of uncited and duplicate numbers: set differences of what is modelled.
- TokenRefresh.RunSafe: the request flag is kept on the request itself; that the HTTP library carries it from one
  config to the next when a request is sent again is taken for granted.
- The body of the refresh call: it holds the refresh token stored when the call is made.
- TokenRefresh.Client.WakeWaiters: sending a request again is one step; the script's request interceptor runs a moment
  later, before any other event.
- Login, logout and the timer-driven refresh of the session store appear only as arbitrary token changes; redirects,
  error translation and headers other than the token are not part of this model.
- Subscriptions.StoredIffCurrent: the polling interval and error logging are not modelled; a failed fetch stores nothing.
- Popups.ShownOnce: the 20-minute limit between fetches and the calls that report a read mark are not modelled, and an
  answer may arrive at any time, also after a reset. Queue entries are values, so a read mark set later does not show
  on an entry that waits; the script never reads it there.
- EagerLoad.LoadGroups: the join rows are taken to name only accounts that were asked for; otherwise the loader would
  assign through nil. Interceptors that change the neighbours are not modelled.
- EagerQuery.AccountQuery.SqlAll: nested queries load no edges of their own, of the columns only ids, foreign keys and
  the names of groups and proxies are modelled, and predicates, limits, ordering and modifiers of the queries are inside
  the given rows.
- BulkCreate.WellNested: a hook is described by its edits, by how often it calls next after successes and failures, and
  by what it makes of the last result; hooks that keep `next` and call it later, that pass a mutation of another type,
  or that decide by anything but the result are not modelled.
- Edge specs (groups, proxy, parent, children, usage logs) of a created account and the upsert options: handed on
  unread.
- BulkSave.AccountCreateBulk.SaveAll: contexts, panics and the error stored by an earlier builder call are not modelled.
- AuditGate.RunGate: the date parser is a parameter, `today` is an input, and messages are reduced to the kind of
  problem, so titles are read but not printed, and missing and expired exceptions are not moved behind the others.
- AuditFindings.IterVulns: the generator is read to its end before the gate looks at the first finding; the tool prints
  nothing in between, so the exit code is the same.
- Other entities' query and create builders, the ops web socket, the router and the Vue views: the same shapes again, or
  rendering.
