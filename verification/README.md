# memq: a model of its evidence store

memq keeps local evidence for coding agents. It reads session files, indexes what it
finds, forgets on request, keeps authored notes and answers questions within a budget.
This project states what the hard parts of that program mean and proves it:

- **Capture.** A JSONL session file is read with a cache of its verified prefix. `CaptureScan`
  says what a file means without a cache, `CaptureCache` what a manifest in the cache must look
  like, and `Capture.Collect` is the scan that resumes from it. Warm and cold scans give the same.
  `CaptureMeaning` says what that is by the lines of the file alone: whose session it is, which lines
  become items, and why reading stops. `Coalesce` joins copies of one record found in several files.
- **Forgetting.** `Forgetting` is the step relation over the ledger, all retained generations and
  their vector caches; `Purge` is the purge itself, one transaction after another.
- **Notes.** `Notes` lists every durable change behind one retry key, `NoteWriting` the attempt,
  the backfill and the purge of operations, with a crash possible after each change.
- **Paging.** `EvidencePaging` cuts texts at character boundaries under any cost; `PageSize` says
  when a page may be skipped by its size; `Admission` and `Selection` follow what is captured through
  purges and publications to what a reading selects, so that the skip is always sound;
  `ResultPaging` pages ranked candidates; `SharedEncoding` is the dictionary form of a reply,
  `Replies` the choice of form, and `Settling` the count a reply states of itself.
- **Publication and history.** `Publication` has the one clock of all generations; `History` answers
  what was known of an identity up to a view; `LegacyOrder` finds the order of views without numbers.
- **Decisions.** `Decisions` says of pairs of members what replaces and what contradicts what;
  `Reconciling` is the indexed algorithm.
- **Smaller parts.** `Percent` (identities), `Licences` (licence expressions, dependency closure),
  `Utf8`, `Decimal`, `Machine`, `Order`, `JsonValues`, `Tombstones` and `Wrappers`.

Programs that change state step by step are classes or methods with loops here. A store that
several processes share, with crashes between its transactions, is a class whose every write is one
step of a relation and is added to a ghost log; the theorems about logs then hold of what the
methods do, and of every prefix of it.

What is taken for granted: SHA-256 and canonical JSON are injective (hashes of what is compared
are replaced by the values themselves, or by an injective function), and random identifiers never
repeat; JSON parsing, redaction, time
parsing, repository discovery and token counting are arbitrary functions of their input, the same
at every call; SQLite commits a transaction as a whole or not at all; one process at a time holds
the mutation lock; a retained index and its ledger are not lost.

## Model

| member | source | states |
|---|---|---|
| CaptureScan.RunPrefix | src/capture/jsonl.rs:177-326 | scanning a newline-terminated prefix and going on from the state reached is scanning the whole file |
| CaptureScan.RunKeepsTiled | src/capture/jsonl.rs:177-326 | at every stop the accepted records tile the file from the header's end to the accepted offset, with distinct identities and rising Codex ordinals |
| CaptureScan.RunSameScope | src/capture/jsonl.rs:198-234 | two runs that resolve a file's session alike read the same records, whatever their tombstones |
| CaptureScan.OrdinalMeans | src/capture/jsonl_cache.rs:207-209 | an ordinal read from an identity is the one decimal numeral of a 64-bit value |
| CaptureMeaning.ColdMeans | src/capture/jsonl.rs:83-375 | what a scan makes of a file, by its lines alone: nothing but titles comes before the header, whose directory must resolve to this repository, and exactly otherwise the file is set aside as unrelated; each line behind it up to the first that is refused, for a named reason, is one record; every item is such a line, with its digest and its redacted text, in the worktree and branch of the header; a record is withheld exactly if it is forgotten or matched; the cursor stands where the records end |
| CaptureMeaning.SessionMeans | src/capture.rs:143-193 | a header describes a session of this repository, is another repository's, or is refused, and which of these by what it says |
| CaptureMeaning.RunMeans | src/capture/jsonl.rs:177-326 | however long the file, a run between two of its lines ends as the lines say |
| CaptureCache.Decode | src/capture/jsonl_cache.rs:155-221 | a manifest is decoded exactly when the cursor and the whole entry structure meet every demand, said entry by entry in `Trusted` |
| CaptureCache.DecodesIsTrusted | src/capture/jsonl_cache.rs:155-221 | the loop's running values and the entries taken by index demand the same |
| CaptureCache.SoundMeans | src/capture/jsonl_cache.rs:182-213 | decoded entries have no gap, no overlap and no repeated identity |
| CaptureCache.OrdinalsRise | src/capture/jsonl_cache.rs:206-212 | the Codex ordinals of decoded entries rise strictly and lie above the header's |
| CaptureCache.WrittenDecodes | src/capture/jsonl.rs:342-368 | a cursor that a scan writes decodes again if and only if redaction leaves each of its recorded times alone |
| CaptureCache.VersionsAreKeptItems | src/capture/jsonl_cache.rs:230-235 | the versions a manifest refers to are those of the items kept, in order, also after exclusions change |
| CaptureCache.RestoredIsClassified | src/capture/jsonl_cache.rs:239-317 | whatever payload map it is given, a restore that succeeds yields exactly the prefix classified under the present tombstones and forgotten identities |
| CaptureCache.RestoreSucceeds | src/capture/jsonl_cache.rs:262-314 | with the bodies at hand and no exclusion lifted, a restore does not fall back to a rescan |
| Capture.ScopeCache.Session | src/capture.rs:143-193 | the cached scope of a session is the uncached one, and each directory is looked up once |
| Capture.VerifyPrefix | src/capture/jsonl.rs:377-399 | a prefix is accepted exactly when it is all there, ends a line and has the expected digest |
| Capture.RestoreAll | src/capture/jsonl_cache.rs:262-315 | a restore is all or nothing: one bad body leaves nothing behind |
| Capture.ResumeIsRun | src/capture/jsonl.rs:119-172 | what a usable manifest restores is the state a scan of the prefix reaches, so going on from it is scanning the whole file |
| Capture.StoringStaysHonest | src/capture/jsonl.rs:354-369 | storing the cursor of a scan keeps every decodable cursor one that some scan wrote, so reuse may repeat |
| Capture.Collect | src/capture/jsonl.rs:83-375 | warm equals cold: for any content and any cache of earlier cursors, items, inventory, cursor, manifest and error are those of a scan without a cache, and they mean what the lines of the file mean; the records reused and the lines parsed are exactly those before and behind the end of a reusable prefix |
| Capture.SessionStays | src/capture/jsonl_cache.rs:250-260 | a recorded session still resolves to itself if and only if redacting its Git revision again changes nothing |
| Capture.AppendedIsReused | src/capture/jsonl.rs:119-182 | a file read to its end that only grew is never read again from the front: its cursor is reusable, so only appended lines are parsed |
| Coalesce.Coalesce | src/capture/jsonl.rs:20-80 | every record is kept once, coalesced into a kept copy, or paused by a conflict; cursors of conflicting files are set back and nothing else moves |
| Coalesce.KeptIffInterchangeable | src/capture/jsonl.rs:32-58 | an identity is kept, as the first of its records, exactly if any two of them agree on version, worktree, branch and revision, and paused exactly if two do not |
| Coalesce.DisputedRescans | src/capture/jsonl.rs:64-76 | the files that hold a disagreeing copy, and no others, are read again from the start: their cursors decode in no world, and every other cursor is as it was |
| Forgetting.RunKeepsInv | src/tombstone.rs:418-450 | in every reachable state, crashes included, no pending purge means that every version in a vector cache still has its row there |
| Forgetting.LedgerFirst | src/tombstone.rs:244-257 | whatever row or operation a step removes was in the ledger before that step, and the ledger only grows |
| Forgetting.StaysGone | src/tombstone.rs:331-455 | once an identity is in the ledger and its rows and operations are gone, no later state of any run has a row or an operation of it |
| Forgetting.ReferenceReturns | src/store.rs:663-674 | relation rows that point at a forgotten identity come back if and only if a publication carries one that does; the guard does not look at them |
| Forgetting.ReferenceReturnsExample | src/store.rs:663-674 | a run from an empty disk in which that happens |
| Forgetting.ReferencesStayAway | src/store.rs:663-674 | over a whole run, references to an identity stay away if and only if no step publishes one |
| Purge.Archive.PurgeOperations | src/notes.rs:202-275 | the operations matched, and only those, leave the index, each after its key is bound in the ledger to that operation; it fails exactly if the ledger binds one of these keys to something else, and then every row is still there |
| Purge.Archive.RememberMatching | src/tombstone.rs:183-260 | the ledger gains exactly what one index shows to be forgotten, by version, observation or operation, before any of its rows goes; it fails exactly as the purge of operations does |
| Purge.Archive.PurgeIndex | src/tombstone.rs:262-329 | one index loses exactly the rows of forgotten identities and what refers to them, and the marker is set first if it loses any; it fails exactly as the purge of operations does |
| Purge.Archive.Apply | src/tombstone.rs:331-455 | when the whole purge returns, the ledger holds exactly what it held and what some generation showed; every generation is without it and otherwise as before; each epoch is recorded and none pending; caches are gone unless nothing changed. It returns if and only if operations to be forgotten that share a key agree with each other and with the ledger; otherwise it stops, with the rows of each generation all there or without exactly the forgotten ones, and stops again on what it left |
| Purge.SplitKeyRun | src/notes.rs:78-107 | a run from a new disk to one where two generations reserve one key for different identities that one tombstone matches |
| Purge.PurgeSplitKey | src/tombstone.rs:331-455 | on that disk the purge stops, at the first try and at the next |
| Purge.Archive.Publish | src/store.rs:663-674 | a publication naming a forgotten identity, as an item, a version or a member, is refused whole, and only such a one; otherwise its rows are added and every row already there stays as it was |
| Purge.Archive.BuildCache | src/vectors.rs:217-258 | building a vector cache adds one complete file of present versions and leaves no temporary one |
| Purge.AppliedIsClosed | src/tombstone.rs:331-455 | after a purge no generation holds a row, reference or operation of a forgotten identity |
| Purge.AppliedKeepsTheRest | src/tombstone.rs:293-299 | row by row, an item, version, observation, membership, relation or operation is there after a purge, as it was, exactly if it was there before and nothing it stands on or points to is forgotten |
| Purge.AppliedForgets | src/tombstone.rs:205-257 | an identity is forgotten after a purge exactly if it was before, or a tombstone matches an item without versions, a version, an observed version or an operation of it in some generation |
| Tombstones.FieldsNarrow | src/tombstone.rs:45-58 | a predicate without fields matches everything, and each field that is set narrows it by that field alone |
| Tombstones.IntervalCut | src/tombstone.rs:59-77 | an interval cut at any instant between its ends falls into two halves that share no record and miss none |
| Percent.ProjectMatches | src/tombstone.rs:49-55 | a predicate that names a project matches the identities of that project and of no other |
| Purge.MatchForgetsForGood | src/tombstone.rs:355-357 | one old version matched in one generation forgets its identity in all generations and in every later state |
| Purge.FoundBeyondLedger | src/tombstone.rs:225-242 | discovery does not depend on the order in which generations are inspected: what is found with the ledger at hand is the ledger and what is found without it |
| Notes.AtMostOneFile | src/notes.rs:612-656 | over any attempts, crashes and outside edits, no two files are ever published for one retry key |
| Notes.BoundForGood | src/notes.rs:78-107 | a used key stays bound to its identity and payload through every crash of a write or a purge |
| Notes.RepliesAgree | src/notes.rs:425-673 | any two replies given under one key, by attempts before or after any crash, purge or edit, name one identity for one payload; every reply of `NoteWriting.Notebook.Write` is recorded with the state it answered in |
| Notes.FilesStay | src/util.rs:114-119 | over any run in which nobody else edits the files, every note file stays as it is, and each new one holds a whole note under the only name published for its key |
| Notes.RunKeepsInv | src/notes.rs:202-275 | in every reachable state a retired key agrees with its operation and is in the ledger, and no temporary file outlives its reservation |
| NoteWriting.Notebook.Write | src/notes.rs:425-673 | a write succeeds if and only if the files are readable and agree with the rows under its key, the payload is the one the key stands for, and the name is free or holds that note, or the identity is dead by the key's turn, be it by another key's note; a reply names the note recorded under the key, else the first one found written under it, else a new file with the given name and time, the redacted payload and the origin of the request; it is forgotten only for a cause; a different payload changes neither reservation nor files; a failed attempt publishes nothing |
| NoteWriting.Notebook.Attempt | src/notes.rs:494-656 | exactly when an attempt succeeds, and everything it leaves |
| NoteWriting.Notebook.PublishFile | src/notes.rs:612-656 | whatever an interrupted attempt left, publishing fails exactly when another file has the name, and otherwise leaves the file in place and no temporary one |
| NoteWriting.Notebook.Backfill | src/notes.rs:291-423 | keys are taken in the order of their hashes; reservations are recovered from authored notes as they stand there, a key is bound for good exactly if a note of its identity, its own or an earlier key's, is dead, and nothing else is forgotten; a key on which files, reservation and ledger disagree is reported and left alone |
| NoteWriting.Notebook.ReadNotes | src/notes.rs:314-359 | comparing each note with the first of its key finds exactly the keys on which some two files disagree |
| NoteWriting.Notebook.PurgeOperations | src/notes.rs:202-275 | keys are bound and temporary files gone before the reservations are; note files stay; within one index and its own ledger no conflict can stop it |
| NoteWriting.RetryAfterSuccess | src/notes.rs:612-623 | over any run after a first publication in which nobody else edits the files, a retry of the same request succeeds if and only if redacting its payload a second time changes nothing |
| EvidencePaging.EvidencePage | src/operations.rs:587-797 | a cursor is stale exactly if it is no place in the space; otherwise the page serves the texts from there in order, at character boundaries, with a true cursor and counts, and stops only where there is no room: before a member of which not one character fits, or inside one whose rest does not fit and, if shorter fragments fit wherever longer ones do, nothing longer; or the budget cannot hold one character, or one of the pages it has to count, each named, has no count |
| EvidencePaging.Search | src/operations.rs:762-785 | for any cost, monotone or not, the search ends with a page that fits and ends at a boundary; if shorter fragments fit wherever longer ones do, it is the longest that fits |
| EvidencePaging.MayBeComplete | src/operations.rs:606-633 | the early exit decides the same as comparing the bytes of all distinct bodies with the limit, saturation included |
| EvidencePaging.CursorIsValid | src/operations.rs:701-735 | a cursor that a page hands out is never stale and always further on |
| EvidencePaging.ChainTiles | src/operations.rs:587-797 | following cursors from the start to the end gives every text exactly once and in order, under any budgets and costs, in a bounded number of pages |
| EvidencePaging.PieceIsText | src/budget.rs:112-118 | every fragment is whole characters |
| Utf8.Utf8End | src/budget.rs:112-118 | the last boundary at or before an offset |
| Utf8.BoundaryIsPrefix | src/budget.rs:112-118 | boundaries are exactly the ends of prefixes of the text |
| PageSize.BoundSurvives | src/operations.rs:606-633 | the bytes of distinct bodies exceed neither the plain nor the shared form of the complete page, if no placeholder hides text |
| PageSize.BoundHoldsIff | src/operations.rs:606-633 | in any envelope, and for given items, the bound holds for all texts, offsets and forms of the page if and only if every item has a text field; a placeholder must come without a text |
| PageSize.LongTextBreaks | src/operations.rs:617-626 | the bound is at least the text left of any one member, so a text longer than the reply breaks it, whatever the reply |
| PageSize.FittingPageIsTried | src/presentation.rs:27-36 | if no placeholder hides text, a complete page that fits, in bytes or in tokens of bounded length, is never skipped, so `EvidencePaging.EvidencePage` serves it |
| Admission.CapturedIsNamed | src/records.rs:67-86 | the source of whatever is captured is the third field of its identity, and where its payload has a time, that is the time it was observed at, so discovery and display test the same |
| Admission.PublicationHolds | src/store.rs:681-770 | a publication of captured items inserts a row for each item, version and observation it has, a membership in its own view for each member, and nothing else, and each row says what its name says |
| Admission.RunStaysFiled | src/store.rs:681-770 | in every state of a run that publishes what is captured, each row says what its name says, whichever row of that name came first |
| Admission.AppliedMatchesNothing | src/tombstone.rs:205-257 | after a purge no row that any generation shows, by version, observation or item alone, is matched by the tombstones or belongs to a forgotten identity |
| Admission.AppliedIsClear | src/operations.rs:424-431 | hence no member of any retained view is withheld but for the ledger |
| Admission.StaysClear | src/reconcile.rs:416-420 | that stays so in every later state, as long as what is published was tested with the same tombstones |
| Selection.ShowSelected | src/operations.rs:497-583 | the loops answer every identity, in the order asked, or fail for want of a text or a history |
| Selection.SelectedMeans | src/operations.rs:508-577 | an identity is withheld, or shown by all its members in the view in their order, or else by the first older member in scope, and a text stands beside its stored payload's item, which has a text field exactly if it is not withheld |
| Selection.FailsIfWanting | src/operations.rs:508-577 | a selection fails exactly if the text or the history that some identity asked for needs is not there |
| Selection.ShowHidesNothing | src/operations.rs:497-583 | what `show` selects from any view of any generation pairs no placeholder with a text |
| Selection.BriefSelected | src/operations.rs:204-230 | the compact brief quotes exactly the members that no tombstone excludes, in their order |
| Selection.BriefHidesNothing | src/operations.rs:204-230 | every item the compact brief selects has a text field |
| Selection.Show | src/core.rs:81-82 | one reading, from the purge through a publication to the selection: every identity asked for is answered as `SelectedMeans` says, and nothing selected hides a text, whatever was on disk before |
| Selection.SelectedPageIsTried | src/operations.rs:606-634 | so a complete page of what a reading selects is never skipped if it fits, in bytes or tokens, plain or shared, in every state of every run |
| ResultPaging.Read | src/operations.rs:239-373 | a page serves ranks in order from its cursor, first as items, then as omissions, stops only where one more does not fit, and states what is left; a search or a page of omissions moves on; it is refused as too small exactly if the page it has to serve does not fit, and as unsettled only if one of the pages it has to count has none |
| ResultPaging.ChainConserves | src/operations.rs:239-373 | over a chain every candidate appears exactly once, in rank order, as an item or an omission |
| ResultPaging.OmissionsLast | src/operations.rs:255-302 | once a brief lists omissions it serves no more items |
| SharedEncoding.Project | src/presentation/shared.rs:5-75 | read by its own rule the projection gives back every item, in order and with repeats; each body and source is listed once; the rest of the reply is kept |
| SharedEncoding.InheritedIsItem | src/presentation/shared.rs:28-53 | splitting a sourced item into body, source and defaults and reading it back is the item, split pointers included |
| SharedEncoding.CommitSplits | src/presentation/shared.rs:86-96 | a pointer into a commit is split behind its third colon |
| SharedEncoding.WorktreeSplits | src/presentation/shared.rs:86-96 | a pointer into a worktree is split before its fragment, if it has one |
| SharedEncoding.NothingSplits | src/presentation/shared.rs:86-96 | a pointer into a commit with fewer colons is not split, nor is any other |
| Replies.Preview | src/presentation.rs:57-76 | the changed paths shown are the longest prefix, up to twenty, within an eighth of the budget, and their full number is kept |
| Replies.SetPathsKeeps | src/presentation.rs:126-145 | showing fewer paths changes neither their number, nor the items, nor a reason already given, and the reply then says that it is incomplete and why |
| Replies.Encode | src/presentation.rs:78-96 | whichever form is sent means the same items, states its own count and counts no more; the plain form is kept only where the shared one does not save enough |
| Replies.Finish | src/presentation.rs:38-55 | what is sent fits, has all the items and states the count it has; a reply is refused as too small only if it does not fit with no path shown at all, and as unsettled only if some form of it has no count to state |
| Replies.BytesAlwaysSettle | src/budget.rs:46-66 | counted in bytes every reply has a count to state |
| Settling.Settle | src/budget.rs:46-66 | success means that the stated count is the count of the reply stating it; failure means that none of the first 32 is |
| Settling.ReplySettles | src/budget.rs:46-66 | counted in bytes every reply with a budget settles at the fourth count or before, so `Settle` returns the size of the reply that states it |
| Settling.SizeByWidth | src/budget.rs:46-66 | the size of a reply depends on the stated count by its decimal width alone |
| LegacyOrder.LegacyPredecessors | src/store.rs:851-902 | the search with an explicit stack ends, fails exactly if some requested view reaches a cycle, and otherwise gives each its ancestors, all of them and not itself |
| LegacyOrder.LinksMeans | src/store.rs:855-871 | the parents of a view are its baselines and the views inserted just before it, in whatever generation |
| LegacyOrder.RowsInOrder | src/store.rs:857-870 | within one generation an earlier row comes before a later one |
| LegacyOrder.AncestryGrows | src/store.rs:500-516 | without cycles the number of ancestors is a linear extension of the order of publication |
| History.HistoryAt | src/store.rs:437-520 | the answer holds everything included by the bound, once, newest first; it fails exactly if the order it needs is not established, or no retained view has the bound's name |
| History.HistoricalMembers | src/store.rs:97-124 | one generation's members of an identity: all of them, with repeats, the newest view first |
| History.LaterFirst | src/store.rs:437-520 | what is listed first was published later, and nothing lies beyond the bound |
| History.RowsNewestFirst | src/store.rs:506-515 | among legacy views of one generation the answer goes from the newest row to the oldest, whatever other generations are mixed in, and within one row by rank |
| History.HoldsUpToBound | src/store.rs:473-486 | an occurrence is in the answer exactly if its number is within the bound's, or it has none and the bound has one, or its row is within the bound's row, or its view leads up to the bound |
| History.IncludedComparable | src/store.rs:500-518 | any two members of an answer are ordered |
| Publication.HistoryStable | src/store.rs:437-520 | for any retained view, every later state of any run gives the same answer, or lacks the same order |
| Publication.RunKeepsInv | src/store.rs:675-682 | in every reachable state numbers are unique, rise with the rows of each generation, and lie within the clock |
| Publication.ShownIsSound | src/store.rs:655-815 | no reachable state shows two rows with one name or one number |
| Publication.Store.Publish | src/store.rs:655-815 | a published view gets a number above all others and is findable; it fails in three ways only, each exactly when its cause is there, and leaves everything, all but the clock, or all but the clock and the view in a generation no more findable than before |
| Publication.Store.Open | src/store.rs:169-305 | opening keeps every view of every generation |
| Reconciling.Reconcile | src/policy.rs:181-370 | the indexed algorithm ends every member as the pairwise definition says, and every look-up is defined |
| Reconciling.Candidates | src/policy.rs:226-269 | the replacement candidates are exactly the pairs linked by a uniquely resolving reference in a permitted scope or by an incoming copy |
| Reconciling.Resolve | src/policy.rs:214-225 | every reference of every member is resolved in every scope, to exactly the members it names there |
| Decisions.WinnersAreWinners | src/policy.rs:271-311 | the winners are the identities of exactly the accepted replacements |
| Decisions.SupersededIff | src/policy.rs:271-319 | a member ends superseded by an identity if and only if that is its one accepted replacement and not its own, where an identity is one member in each scope |
| Decisions.SeveralWinners | src/policy.rs:313-319 | two or more accepted replacements give no winner and a conflict that names them all |
| Decisions.LastWinnerDecides | src/policy.rs:274-312 | where all accepted replacements are one decision, the last of its copies decides the section: from upstream, resolved there and required; otherwise superseded, and required only for a contradiction |
| Decisions.ReplacedEnds | src/policy.rs:299-305 | a decision replaced only from within ends superseded, one replaced only from upstream stays required as resolved there |
| Decisions.ResolvedByItself | src/policy.rs:286-298 | a pending decision whose own copy was accepted upstream is resolved there, required, and superseded by nothing |
| Decisions.FlagsMean | src/policy.rs:306-368 | exactly which flags a member gets, and exactly which identities it is said to conflict with |
| Decisions.NamesMean | src/policy.rs:166-175 | a reference names a member by identity, native name, or a part of a list that is its native name, alone or with a remark in parentheses |
| Decisions.PartsCut | src/policy.rs:169 | a comma or a semicolon cuts a list in two, wherever the first stands |
| Decisions.TrimMeans | src/policy.rs:170-171 | a part is its name with white space around it, and the name neither begins nor ends with any |
| Decisions.ContradictSymmetric | src/policy.rs:345-361 | contradiction is symmetric |
| Decisions.ContradictionsMutual | src/policy.rs:358-368 | of two members that contradict each other each names the other |
| Decisions.AcceptanceKept | src/policy.rs:181-370 | reconciling alters neither identity nor acceptance |
| Decisions.LeftAlone | src/policy.rs:271-319 | a member that nothing replaces or contradicts keeps its place |
| Percent.Unescape | src/util.rs:49-74 | decoding succeeds exactly on encodings, and what it accepts encodes to itself again |
| Percent.SpelledRoundTrip | src/util.rs:37-74 | an encoding spells the bytes it was made from |
| Percent.EscapedInjective | src/util.rs:37-47 | encoding loses nothing |
| Percent.EscapedIsCanonical | src/util.rs:37-47 | an encoding consists of unreserved characters, slashes and escapes with two uppercase digits, and only bytes that are neither are escaped |
| Percent.IdentityDetermines | src/tombstone.rs:149-154 | identities of colon-free projects and sources are injective, and the third field is the source |
| Licences.Satisfies | scripts/collect_licenses.py:83-128 | an expression is accepted exactly if the grammar derives all its tokens, in one way only, and the answer is the value of that derivation; none with an exception is accepted |
| Licences.Parser.ParseEither | scripts/collect_licenses.py:114-122 | an alternative is parsed if and only if one starts here, and then the only one |
| Licences.Parser.ParseBoth | scripts/collect_licenses.py:105-112 | the same for a conjunction, which binds tighter |
| Licences.Tokenize | scripts/collect_licenses.py:85-88 | text is accepted exactly when nothing but spaces lies between its tokens |
| Licences.SpacedScans | scripts/collect_licenses.py:86 | tokens written apart are found again |
| Licences.SatisfiesText | scripts/collect_licenses.py:83-128 | every expression, printed, is accepted and means what it says, and two identifiers with a slash between them are accepted and mean one or the other |
| Licences.SlashIsOr | scripts/collect_licenses.py:85 | a slash anywhere in a text stands for `OR` between what comes before and behind |
| Licences.AcceptedIsAnnexD | scripts/collect_licenses.py:83-128 | what is accepted, token for token, is an expression of Annex D of the SPDX Specification 2.3, read in its order of precedence, if and only if no word has a plus sign before its end |
| Licences.PlusInside | scripts/collect_licenses.py:86 | one accepted word that the annex does not have |
| Licences.Dependencies | scripts/collect_licenses.py:263-271 | the packages found are exactly those the root reaches by normal and build dependencies, without itself |

## Left out

- Forgetting.ReferenceReturns: forgetting is not irreversible for relation rows, because the publication guard looks at items and members only; the lemma says exactly when they return.
- CaptureCache.WrittenDecodes: a scan whose recorded times redaction would change again writes a manifest that is not decoded, so the condition is part of the lemma; the next run then rescans, as `Capture.Collect` allows.
- PageSize.BoundSurvives: requires that no placeholder hides text; `Selection.ShowHidesNothing` and `Selection.BriefHidesNothing` prove it of what is selected.
- NoteWriting.Notebook.Write: does not promise that a retry of one's own file succeeds if redaction is not idempotent on its payload; `NoteWriting.RetryAfterSuccess` is the exact condition.
- Settling.Settle: nothing is said of how a token count behaves; it may fail to settle.
- History.HistoricalMembers: the query leaves the order within one view open; the model takes the view's own.
- Capture.Collect: leaves out the random observation id, the time of observation, and the counts of redactions and look-ups; a file that changes while it is read, and read errors other than a short file, are not modelled.
- CaptureScan.RunKeepsTiled: assumes injective digests, and so leaves the shape of a digest's text (64 hex digits) abstract.
- Coalesce.Coalesce: versions are compared by value; the counters it reports are the two it returns.
- Purge.Archive.Apply: does not promise to return. A crash after a reservation, a rebuild that opens a generation without operations and a retry leave one key with two identities (src/store.rs:169, src/notes.rs:78-107); a tombstone that matches both then stops every later purge, as `Purge.SplitKeyRun` and `Purge.PurgeSplitKey` show. It leaves out damaged archives, empty build directories, unreadable schemas, usage counts, full-text indexes and the vacuum.
- Purge.Archive.PurgeOperations: leaves out temporary note files, which `NoteWriting.Notebook.PurgeOperations` has, and operations without a stored identity.
- Purge.Archive.BuildCache: vectors, distances and the search itself are left out; only which versions a file holds is kept.
- NoteWriting.Notebook.Backfill: legacy retry keys lost to redaction and reservations without identity are left out, as are linked worktrees; the listing of files is a parameter.
- NoteWriting.Notebook.Attempt: checks of the request's fields are one predicate; symbolic links, foreign paths and staging in Git are left out.
- Selection.Show: the full item's other fields, availability and the compact form are left out of the selection; what a payload or a history look-up returns is a parameter, and so is which older members are in scope. A reading that falls back to a view published before is covered, because any view of any generation is.
- EvidencePaging.EvidencePage: usage counts are left out, and the cursor's text form; a page is what it serves and says, not its bytes.
- ResultPaging.Read: the candidates are the same on every page; rendering, search ranking and the compact form are left out. The count of a page that also lists omissions is taken before they are listed.
- SharedEncoding.Project: an envelope whose `memq` field is no object is not considered.
- LegacyOrder.LegacyPredecessors: rows of a damaged archive are not modelled.
- History.HistoryAt: members met twice through one archive are listed once; decoding of stored views is left out.
- Publication.Store.Publish: what is inserted besides the view is in `Purge.Archive.Publish`; health checks and source validation are parameters.
- Reconciling.Reconcile: fields that reconciling neither reads nor changes are left out of a member; `evaluate` is left out.
- Licences.SatisfiesText: which licence texts are recognised is a parameter.
- Licences.AcceptedIsAnnexD: is about tokens and the shape of words; the annex's lists of identifiers, `WITH` and the prefix of other documents are left out, and text with a slash for OR, or with no space beside an operator, is outside the annex in any case.
- Semantic search, Git, the OpenCode adapter, the command line, MCP and hooks are left out: they would add cases, not deeper properties.
- Nothing here runs the program.
