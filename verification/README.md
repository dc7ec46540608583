# Verified model of the GAH controller's stateful core

GAH dispatches coding agents to model backends. This project models the parts of it that keep state
across calls or rewrite text, and proves what those parts promise over every run and every input:

- **Availability** (`src/availability.rs`): an append-only record list, compacted on each write and read
  through three overlapping selectors. `Store` carries the file's records next to a ghost `history` that is
  never compacted; all its operations are specified against that history, so compaction is proved invisible.
  On top of it stand the listing, the reprobe pass, the operator's clear and the cause-transition test.
- **Cargo target slots** (`src/build_cache.rs`): a transition system over directories, lock files, inodes,
  lock holders and one program counter per process. Every system call of acquire, drop and prune is its own
  step, and a process may fail or be killed between any two of them.
- **Prompt compaction** (`src/context.rs`), the **glob compiler and git record reader**
  (`src/generated_artifacts.rs`), **failure notifications** (`src/notifications.rs`), **credential revisions**
  (`src/credentials.rs`), the **manager log** (`src/manager_log.rs`), the **hook installer**
  (`scripts/install-memory-hooks.py`), **claim renewal** (`src/central_claims.rs`), **event reconciliation**
  (`src/events.rs`) and **curl framing** (`src/curl_http.rs`).

Objects that the program updates in place are classes (`Store`, `Notifier`, `Disk`, `EventLog`), loops are
methods proved against specification functions, and concurrent protocols are step relations. Clocks, write
failures, crashes and the actions of other processes are parameters that range over all values.

## What the code does not give

Some claims turned out to hold only on part of their inputs. Each is stated as an exact condition or has a
concrete counterexample:

- "Expiry alone is not recovery" (`src/availability.rs:466`): compaction can drop the expired row that names an
  ongoing cause, after which the same failure is reported as new. `TransitionSurvivesRetention` and, over whole runs,
  `TransitionSurvivesRun` say exactly when this cannot happen for a scope, `RetentionCanForgetACause` exhibits it.
- A reprobe pass writes under the listed scope, not under the scope of the blocking record. `StaleAfterPass` says
  exactly which queries stay stale after a pass, for every history. Without labels none does; with a pool label
  `LabelsCanStarvePasses` gives a file whose query stays stale, and which every pass corrects once more, at whatever
  instants the passes run, until the block itself is within the ceiling of its end. The history grows with every such
  pass; the file keeps an earlier correction only until it has expired (`CorrectionSurvivesIff`).
- A scoped clear can affect other scopes, because the selectors overlap (the comment at `src/availability.rs:1026-1028`
  claims independence). `ClearLeavesQueryAloneIff` says exactly which queries a clear can never change, and
  `PoolClearLiftsBackendDisable` shows the clear of one pool lifting the disable of a whole backend.
- Compaction loses protected text or section boundaries when a heading is named exactly `Preamble`, or when a line
  of a protected body still ends in a carriage return after line splitting. `EnforceKeepsProtectedIff` is the exact
  condition, `CarriageReturnIsLost` and `PreambleHeadingIsLost` are failing prompts. For the same reasons a second
  compaction can give another text: `EnforceIdempotentIff` is the exact condition, `SecondRunDiffers` a failing prompt.
- `**` does not cross a newline in a path, because the regular expression's dot does not:
  `CompilerPreservesMeaningIff`.
- Rollback recognises its own write by content, so a file that somebody else rewrote with exactly the installer's
  new content is rolled back too. `RollbackMissesIff` says exactly which files a failed run leaves wrong, in terms of
  the others' edits alone, and `LookAlikeIsLost` is one such run.

## Model

| member | source | states |
|---|---|---|
| `Availability.Latest` | src/availability.rs:603-631 | the selected record is the last match in file order, and none is reported only if no record matches |
| `Availability.BlockerIff` | src/availability.rs:603-737 | the decision names record i on a level iff, by the fields of the records, it is unavailable with no readable end passed, is the last that concerns the query there, no broader level's last one blocks and no broader clear came after a model's block; so at most one record blocks |
| `Availability.EligibleIff` | src/availability.rs:633-737 | a query is eligible iff no record of the file blocks it, and a block quotes that record's reason and end |
| `Availability.SingleBlockIff` | src/availability.rs:547-631 | one record blocks a query iff it is unavailable, its end has not passed, and pool, or backend, instance and model agree field by field; another instance never does |
| `Availability.ExpiredIff` | src/availability.rs:565-572 | expired is exactly an unavailable record that no longer blocks |
| `Availability.AliasIsFolded` | src/config.rs:402-408 | the one alias, and every other name kept |
| `Availability.QuotaClearIff` | src/availability/quota_failures.rs:46-77 | a successful run appends one available record iff the last record of exactly its scope is a quota block seen on the backend or its correction |
| `Availability.KeptBelow` | src/availability.rs:577-599 | the kept positions are, in file order, exactly those that are unexpired or last of their exact scope |
| `AvailabilityRetention.RetentionEmbeds` | src/availability.rs:577-599 | retention, then alias folding, keeps file order and the last record of every folded scope |
| `AvailabilityRetention.LatestThroughEmbedding` | src/availability.rs:603-631 | any list that embeds so in a longer one gives every selector (pool, backend-wide, model) the same record |
| `AvailabilityRetention.BlockerThroughEmbedding` | src/availability.rs:669-737 | the blocking record and its scope are the same one before and after compaction |
| `AvailabilityRetention.SameNewRecords` | src/availability/quota_failures.rs:46-77 | a write that inspects the file (clearing a quota streak) appends the same records as on the full history |
| `AvailabilityRetention.WriteKeepsRefinement` | src/availability.rs:337-387 | one load, change, compact and write cycle keeps the file a refinement of the uncompacted history, whatever the clock |
| `AvailabilityRetention.CompactionInvisible` | src/availability.rs:311-321 | for every sequence of writes at any clock values, every query at every instant decides as on the never-compacted history |
| `AvailabilityListing.CompareKeyLaws` | src/availability.rs:759-765 | the derived order of scope keys is a total order whose ties are equal keys |
| `AvailabilityListing.CompareKeyIff` | src/availability.rs:759-765 | the order is by backend, instance, model and pool in turn, a missing one first, each by its first differing character |
| `AvailabilityListing.RowQuotes` | src/availability.rs:796-834 | a blocked row quotes reason, end, source, summary and time of the record that blocks; an eligible one quotes its own scope's record |
| `AvailabilityListing.ScopesSorted` | src/availability.rs:770-785 | the listed scopes are strictly sorted and are exactly the scopes of the records |
| `AvailabilityListing.ListingInvisible` | src/availability.rs:770-836 | the whole listing, rows and details, is the same on the compacted file and on the history |
| `AvailabilityReprobe.RowQuotesBlocker` | src/availability.rs:796-816 | a row needs correcting exactly when the record that blocks its scope is a backend error ending beyond the ceiling |
| `AvailabilityReprobe.CapsContents` | src/availability.rs:859-895 | the appended corrections all end at the ceiling, belong to stale listed scopes, and every stale listed scope gets one |
| `AvailabilityReprobe.CapQuotes` | src/availability.rs:875-891 | a correction keeps scope and reason, ends 7200 seconds ahead, and quotes the old end and the original observation |
| `AvailabilityReprobe.StaleAfterPass` | src/availability.rs:859-895 | for every file, a query is stale after a pass iff it was before and no stale scope of the file before the pass answers for it on its blocking level or a broader one |
| `AvailabilityReprobe.OnePassSuffices` | src/availability.rs:838-895 | without pool and instance labels no query is blocked after one pass by a backend error that ends more than 7200 seconds ahead, and a second pass at that instant changes nothing |
| `AvailabilityReprobe.PassRefines` | src/availability.rs:859-895 | a pass over the compacted file, each correction its own compacting write at any clock, sees the rows of the history and refines a pass over the history |
| `AvailabilityReprobe.LabelsCanStarvePasses` | src/availability.rs:875-892 | after any number of passes over a three-record file with a pool label, at any instants before its block nears its end and any write clocks, the compacted file is still stale and the next pass again appends a correction |
| `AvailabilityReprobe.CorrectionSurvivesIff` | src/availability.rs:577-599 | in such a file the write of the next correction keeps an earlier one iff it has not expired by the write's clock |
| `AvailabilityStore.Store.constructor` | src/availability.rs:145-153 | a store starts with its file as its history |
| `AvailabilityStore.Store.ApplyRetention` | src/availability.rs:577-599 | the in-place filter leaves the retained records and returns how many it dropped |
| `AvailabilityStore.Store.Update` | src/availability.rs:337-387 | an unsupported version changes nothing; otherwise the new file, the extended history, the upgraded version and the drop count |
| `AvailabilityStore.Store.AvailabilityFor` | src/availability.rs:641-737 | the answer from the compacted file is the decision on the uncompacted history |
| `AvailabilityStore.Store.ListScopes` | src/availability.rs:770-836 | the rows computed from the compacted file are the listing of the uncompacted history |
| `AvailabilityStore.Store.ReprobeStale` | src/availability.rs:859-895 | one read followed by many compacting writes: the exact file, which amounts to one pass over the history; returns the number of corrections |
| `AvailabilityStore.Store.Clear` | src/availability.rs:1029-1067 | refused with both instance and pool, without change; otherwise appends one manual available record under the canonical backend |
| `AvailabilityStore.LastPositions` | src/availability.rs:578-590 | the collected positions are exactly those with no later record of the same scope |
| `AvailabilityStore.RetainBy` | src/availability.rs:591-598 | filtering by those positions and by expiry yields the retained records in order |
| `AvailabilityStore.EligibilityIsPermanent` | src/availability.rs:547-560 | with no new record, eligible at one time means eligible at every later time |
| `AvailabilityClear.ClearLeavesQueryAloneIff` | src/availability.rs:1024-1067 | a clear leaves a query's decision alone on every file at every time iff none of the query's pool, backend-wide and model levels picks the cleared scope |
| `AvailabilityClear.PoolClearLiftsBackendDisable` | src/availability.rs:1024-1067 | the clear of one pool makes a backend that an operator had disabled eligible for queries without a pool |
| `AvailabilityClear.ClearOpensBackend` | src/availability.rs:1029-1067 | right after a backend-wide clear every query of that backend is eligible iff its pool's latest record, if any, is not active |
| `AvailabilityClear.UnconsultedChangesNothing` | src/availability.rs:603-737 | a new record that shares neither the query's pool nor its backend, instance and model changes no decision |
| `AvailabilityClear.OtherInstanceChangesNothing` | src/availability.rs:652-656 | in particular one of another instance and another pool |
| `AvailabilityStore.RetentionBounds` | src/availability.rs:574-599 | after retention an expired record is always the last of its scope, and retention again changes nothing |
| `AvailabilityCauses.TransitionSurvivesRetention` | src/availability.rs:466-514 | one retention leaves the cause-transition answer of a scope unchanged for all failures iff the scope's last observation is not a superseded expired block, or the last observation that is not one is a block for the same cause |
| `AvailabilityCauses.RunHoldsSurvivors` | src/availability.rs:337-387 | over every run of writes the file holds exactly the history records that at no write since were both expired by its clock and followed by a record of their scope |
| `AvailabilityCauses.TransitionSurvivesRun` | src/availability.rs:489-513 | over every run of writes the file gives the cause-transition answer of the never-compacted history for all failures of a scope iff the scope's last observation survived, or the last surviving one is a block for the same cause |
| `AvailabilityCauses.RetentionCanForgetACause` | src/availability.rs:466-514 | a file on which retention makes an ongoing cause look like a new one |
| `AvailabilityCauses.TransitionIff` | src/availability.rs:498-513 | with an observation on record, a failure is a transition iff that says available, or reason, or for an exhausted quota the evidence, differs |
| `AvailabilityCauses.EvidenceIs` | src/availability/quota_failures.rs:24-36 | the evidence is the summary up to the first confidence note |
| `AvailabilityCauses.ClearIsRecovery` | src/availability.rs:465-466 | after an explicit clear the next failure of the scope is a transition |
| `BuildCache.StepInv` | src/build_cache.rs:106-248 | every enabled step of every process keeps the protocol invariant and leaves the other processes' locks, paths and directories alone |
| `BuildCacheTheorems.RunInv` | src/build_cache.rs:106-248 | every state of every run satisfies the invariant |
| `BuildCacheTheorems.GuardOwnsItsPath` | src/build_cache.rs:106-152 | a live guard's slot path names the very inode it has locked, and no other process is guard of that slot |
| `BuildCacheTheorems.OthersKeepLiveTargets` | src/build_cache.rs:170-248 | no step of another process, be it prune, drop, acquire or crash, removes or rebinds a live guard's directory |
| `BuildCacheTheorems.FullDrop` | src/build_cache.rs:170-195 | a drop that meets no error, whatever the others do meanwhile, leaves neither directory nor lock path of its slot, and its lock free |
| `BuildCacheTheorems.ReleaseEnds` | src/build_cache.rs:115-152 | leaving the critical section frees the lifecycle lock and leaves a live guard exactly after a won acquire |
| `BuildCacheTheorems.FailuresKeepFiles` | src/build_cache.rs:175-193 | an error or a crash frees the process's locks and removes no file |
| `BuildCacheTheorems.AnythingCanFail` | src/build_cache.rs:106-248 | the model admits a crash at every point, an error of every call and any start |
| `BuildCacheTheorems.TakesFirstFreeSlot` | src/build_cache.rs:119-139 | an acquire takes the first slot it finds free, all lower ones having been owned when probed |
| `BuildCacheTheorems.PassedOverSlotWasOwned` | src/build_cache.rs:119-147 | a slot that an acquire has passed over was held by a live guard when it was probed, in this same search |
| `BuildCacheTheorems.FullOnlyIfEverySlotOwned` | src/build_cache.rs:148-151 | acquire reports no free slot only if each of the 64 slots was held by a live guard when this same search probed it |
| `BuildCacheTheorems.ScanOfRun` | src/build_cache.rs:210-247 | at every point of a prune the listed directories split into still to do, busy, passed over after a lock error, and done, and the count is the number done |
| `BuildCacheTheorems.BusyWasOwned` | src/build_cache.rs:234-236 | a directory that prune skips because its lock is taken belonged to a live guard when this same pass probed it |
| `BuildCacheTheorems.UnprobedFailed` | src/build_cache.rs:234-236 | any other directory that prune skips had its try-lock fail with an error in this same pass |
| `BuildCacheTheorems.ListedAtStart` | src/build_cache.rs:204-213 | a prune's listing is the directory set at the moment it entered the critical section, which it has not left since |
| `BuildCacheTheorems.DryAsAsked` | src/build_cache.rs:199-243 | a pass is dry exactly if it was started so |
| `BuildCacheTheorems.FullPrune` | src/build_cache.rs:199-248 | a finished prune leaves only directories that were owned when this pass probed them or whose try-lock failed in it, and its count is the number removed; a dry run removes none |
| `BuildCacheTheorems.HolderNeverBlocked` | src/build_cache.rs:172-195 | in every reachable state the lifecycle holder has a step that is neither a failure nor a crash |
| `BuildCacheTheorems.NoDeadlock` | src/build_cache.rs:115-152 | whenever some process is inside an operation, some process can make progress |
| `BuildCacheTheorems.CriticalSectionEnds` | src/build_cache.rs:199-248 | every step of the lifecycle holder lowers a positive measure or leaves the critical section, and nobody else's step disturbs it |
| `Context.SplitSections` | src/context.rs:280-325 | the line loop computes the recursive splitter |
| `Context.RenderSections` | src/context.rs:327-345 | the buffer loop computes the concatenation of the printed sections |
| `Context.StubCount` | src/context.rs:230-243 | the least number of stubbed unprotected sections that reaches the soft limit, or all of them if none does |
| `ContextEnforce.Enforce` | src/context.rs:192-271 | the two stubbing phases with their early exit compute the specified outcome, refusals included |
| `ContextEnforce.StubHistories` | src/context.rs:211-228 | the nested loops over history kinds and sections overwrite exactly the unprotected sections of some kind |
| `ContextEnforce.Removable` | src/context.rs:231-235 | the collected indices are the unprotected sections, in order and all of them |
| `ContextEnforce.StubUntilFits` | src/context.rs:230-243 | the loop stops at the shortest sufficient prefix of unprotected sections, with exactly those stubbed |
| `ContextRoundTrip.TrimFacts` | src/context.rs:288-316 | trimming a heading is idempotent and does not change which protection markers it contains |
| `ContextRoundTrip.Resplit` | src/context.rs:280-345 | printing well-shaped sections and splitting again gives them back up to carriage returns at body line ends |
| `ContextRoundTrip.SplitHasShape` | src/context.rs:280-325 | the splitter's output is always well shaped, and is free of carriage returns and `Preamble` headings iff the prompt's lines are |
| `ContextRoundTrip.RoundTripIff` | src/context.rs:280-345 | split, print and split again is the identity exactly on prompts with no `Preamble` heading and no line left ending in a carriage return |
| `ContextRoundTrip.ProtectedCleanIff` | src/context.rs:287-322 | the protected bodies are clean iff no line under a protected heading, or before the first heading, is left ending in a carriage return |
| `ContextRoundTrip.PlainPromptsAreFaithful` | src/context.rs:280-345 | prompts without carriage returns and without a `Preamble` heading are in that domain |
| `ContextEnforce.WellFormedRoundTrip` | src/context.rs:327-345 | the splitter undoes the printer on all well-formed section lists |
| `ContextEnforce.CompactedSplitsBack` | src/context.rs:211-243 | the compacted text re-splits into exactly the compacted sections, same names and order, protected bodies unchanged |
| `ContextEnforce.EnforceKeepsProtectedIff` | src/context.rs:192-271 | for every prompt and all limits, a successful result re-splits into the prompt's section names in order with every protected body unchanged iff nothing was compacted, or no heading is named `Preamble` and no protected body line ends in a carriage return |
| `ContextEnforce.EnforceKeepsNames` | src/context.rs:253-270 | the reported section names are then the prompt's own |
| `ContextEnforce.CarriageReturnIsLost` | src/context.rs:287-320 | a prompt whose protected text compaction changes |
| `ContextEnforce.PreambleHeadingIsLost` | src/context.rs:330-332 | a prompt that loses a section to compaction |
| `ContextMeaning.ByteLenIs` | src/context.rs:188-190 | the measured length is that of the UTF-8 encoding, defined separately |
| `Utf8.CharReadsBack` | src/context.rs:187-190 | that encoding is read back character by character as RFC 3629 defines it |
| `ContextMeaning.EstimateIff` | src/context.rs:188-190 | the estimate is at most n iff the text has at most 4n bytes |
| `ContextMeaning.UnchangedIff` | src/context.rs:192-209 | delivered unchanged iff disabled or the bytes are within four times both limits |
| `ContextMeaning.ReportedSizes` | src/context.rs:193-262 | the reported sizes are the bytes before and after, in fours, rounded up |
| `ContextMeaning.WithinHardLimit` | src/context.rs:245-252 | when enabled, at most four bytes are delivered for each token of the hard limit |
| `ContextMeaning.RefusalIff` | src/context.rs:194-252 | with soft at most hard, refusal iff in bytes the prompt and every reduction short of all stubs are over four times the soft limit, and the fully stubbed prompt is over four times the hard limit |
| `ContextMeaning.CompactedBodies` | src/context.rs:211-243 | section by section: protected bodies kept, the first n others a bare stub, later ones a stub with their name if they are a kind of history, else kept |
| `ContextMeaning.ProtectedNames` | src/context.rs:290-312 | protected iff the heading contains one of the nineteen names |
| `ContextMeaning.HistoryNames` | src/context.rs:213-221 | a kind of history iff the heading contains one of the five names |
| `ContextMeaning.PrintedAgain` | src/context.rs:280-345 | without a `Preamble` heading, printing a split prompt gives all its lines in order, heading names trimmed |
| `ContextMeaning.LineEndsAtCrLf` | src/context.rs:287-288 | a carriage return before a newline is not part of the line |
| `ContextMeaning.TrimIs` | src/context.rs:314-314 | trimming cuts whitespace at both ends and nothing else |
| `ContextMeaning.NamesAre` | src/context.rs:372-378 | the reported names are those of the headings, in order |
| `ContextIdempotence.EnforceIdempotentIff` | src/context.rs:192-271 | for every prompt and all limits, compacting a successful result again gives the same text iff there was nothing to do, some number of stubs reaches the soft limit, or no protected body line ends in a carriage return and every `Preamble` heading follows a protected section, directly or after other such headings |
| `ContextIdempotence.SecondRunDiffers` | src/context.rs:192-271 | a prompt whose second compaction differs from the first |
| `ContextIdempotence.MergePrintsAlike` | src/context.rs:327-345 | a list with unprinted headings prints like the list in which those sections are merged into the ones before them |
| `ContextIdempotence.RenderDeterminesBodies` | src/context.rs:327-345 | two well-shaped section lists with the same names that print alike have the same bodies |
| `GeneratedArtifacts.GlobRegex` | src/generated_artifacts.rs:130-165 | the index loop emits the compiled token list and fails exactly on a blank pattern |
| `GeneratedArtifacts.AnyDirsMeans` | src/generated_artifacts.rs:140-144 | the emitted optional directory prefix matches the empty text or newline-free text up to a final slash |
| `GeneratedArtifacts.CompilerExact` | src/generated_artifacts.rs:130-165 | the emitted expression accepts exactly what the direct glob matcher accepts when double stars stop at newlines |
| `GeneratedArtifacts.CompilerPreservesMeaningIff` | src/generated_artifacts.rs:130-165 | all patterns mean on a path what the plain glob matcher says iff the path has no newline |
| `GeneratedArtifacts.DirectoryPattern` | src/generated_artifacts.rs:7-30 | the default shape of a deny pattern accepts a path iff the path has no newline and some component other than the last equals the segment |
| `GeneratedArtifacts.DirectoryPatternNormalized` | src/generated_artifacts.rs:131-134 | normalisation leaves such patterns alone |
| `GeneratedArtifacts.DeniedIndexAdditions` | src/generated_artifacts.rs:38-101 | the indexed record loop computes the verdict list, with the errors for bad patterns and truncated records |
| `GeneratedArtifacts.EntriesRoundTrip` | src/generated_artifacts.rs:71-91 | reading the fields of any list of additions and renames returns that list |
| `GeneratedArtifacts.ReadingIsExact` | src/generated_artifacts.rs:71-91 | whatever is read successfully accounts for every field in order |
| `GeneratedArtifacts.GuardSeesEveryRecord` | src/generated_artifacts.rs:66-100 | on git's NUL-separated output for any records, the guard's answer is the verdict on each of them, in order |
| `ArtifactGuard.GuardDeniesExactly` | src/generated_artifacts.rs:66-100 | it denies exactly the records whose tracked path, for a rename its destination, matches a pattern by the glob matcher, in order, naming that path and the first such pattern |
| `ArtifactGuard.GuardFailsIff` | src/generated_artifacts.rs:43-91 | without patterns it is off; it fails iff a pattern is blank or the fields are not those of whole records |
| `ArtifactGuard.NormalizedIs` | src/generated_artifacts.rs:131-131 | a pattern is read trimmed and with forward slashes |
| `ArtifactGuard.PlainPattern` | src/generated_artifacts.rs:157-160 | a pattern without wildcards accepts itself only |
| `ArtifactGuard.QuestionMark` | src/generated_artifacts.rs:153-156 | a question mark is one character other than a slash |
| `ArtifactGuard.SuffixPattern` | src/generated_artifacts.rs:21-21 | the suffix shape of the default patterns accepts a path iff the path ends in the suffix |
| `GeneratedArtifacts.FirstMatchMeans` | src/generated_artifacts.rs:92-98 | the reported pattern is the first that matches the path, and none is reported iff no pattern matches |
| `Notifications.Notifier.constructor` | src/notifications.rs:825-828 | a fresh process starts with an empty cache over the existing log |
| `Notifications.Notifier.LatestUnresolved` | src/notifications.rs:885-908 | reads the log and refreshes the cache when readable, else answers from the cache and leaves it alone |
| `Notifications.Notifier.NotifyFailure` | src/notifications.rs:1086-1125 | whether a report is sent, the event that is appended field by field, and the exact new cache, also when the log cannot be read or written |
| `Notifications.SentIff` | src/notifications.rs:910-939 | with a failure of the work item open, a report is sent iff class, stage, attempts or summary differ, the old stamp cannot be read, or more than the window has passed |
| `Notifications.SentWhenNothingOpen` | src/notifications.rs:911-915 | with nothing open it is always sent |
| `Notifications.Notifier.NotifyResolved` | src/notifications.rs:1136-1171 | a resolution is sent exactly when a failure is known open, with the exact new log and cache |
| `Notifications.StepJustified` | src/notifications.rs:910-939 | every operation only appends, and keeps each failure and resolution logged since the start of the run justified by the log before it |
| `Notifications.ScanFinds` | src/notifications.rs:864-883 | the backward scan returns the last terminal event of the key, or nothing if that is a resolution |
| `Notifications.NoRepeatedFailure` | src/notifications.rs:910-982 | over every run from any log, a recorded failure and the one before it of the same profile and work item differ in class, stage, attempts or summary, or their stamps, if both can be read, lie more than the window apart |
| `Notifications.ResolutionClosesFailure` | src/notifications.rs:1136-1171 | over every run from any log, each recorded resolution closes an open failure of its key, so never two in a row |
| `Notifications.FallbackAgreesWithLog` | src/notifications.rs:851-1035 | while this process is the only writer and its writes succeed, each cached record equals the log scan in every compared field |
| `Notifications.FallbackDecides` | src/notifications.rs:890-939 | deciding from the cache suppresses only a repeat of the failure the log has open, and never suppresses a different one |
| `Credentials.StepInv` | src/credentials.rs:344-428 | save, remove, sign-in reads and late outcome writes, in any interleaving, keep the revision invariant |
| `Credentials.StoredOutcomesAreGenuine` | src/credentials.rs:397-428 | in every reachable state a stored session or rejection was produced from the secret now stored |
| `Credentials.RotationDropsOutcomes` | src/credentials.rs:358-377 | persisting a save installs its secret with no session and no rejection, under a revision different from the replaced one |
| `Credentials.RetiredForEver` | src/credentials.rs:418-422 | once a revision of a source is gone it stays gone, so a sign-in that read it can never write |
| `Credentials.ReplacementRetires` | src/credentials.rs:453-458 | removing or replacing a credential retires its revision |
| `Credentials.CurrentSessionLands` | src/credentials.rs:397-428 | a session for the revision still stored is stored and nothing else changes; a late one changes nothing |
| `Credentials.CurrentRejectionLands` | src/credentials.rs:405-428 | a rejection of the revision still stored is stored and drops the session; a late one changes nothing |
| `Credentials.OtherStepsAre` | src/credentials.rs:344-458 | what reading, removing, preparing and abandoning do to the stored credentials |
| `ManagerLog.LoadFile` | src/manager_log.rs:146-178 | the read loop returns the wanted complete lines that decode, in order, and counts the others |
| `ManagerLog.AppendFits` | src/manager_log.rs:92-123 | an append cut short after any number of bytes, onto any file, leaves complete lines and one accounted-for fragment; an invalid event writes nothing |
| `ManagerLog.LoadAfterCrashes` | src/manager_log.rs:92-178 | after any run of possibly torn appends onto any file, load returns exactly the expected events and skip count |
| `ManagerLog.CompletedAppendsAreLoaded` | src/manager_log.rs:92-178 | load returns the file's old events, then one for every completed append, once, in order and unmerged; anything else loaded wrote its whole record |
| `ManagerLog.Place` | src/manager_log.rs:202-219 | finds the first item whose work id is an alias, or adds a fresh one, and leaves the other items alone |
| `ManagerLog.AddEvent` | src/manager_log.rs:220-236 | fails iff a group total exceeds 64 bits; otherwise the item tells the totals, maxima and last values of its group |
| `ManagerLog.TakeEvent` | src/manager_log.rs:201-237 | one round of the loop keeps one faithful item for each group, or fails because a total has overflowed |
| `ManagerLog.Summarize` | src/manager_log.rs:199-244 | overflow is reported iff some group total exceeds 64 bits; otherwise one faithful item for each group, for any alias relation |
| `ManagerLog.GroupsConserve` | src/manager_log.rs:201-219 | each event belongs to exactly one group: any quantity summed over groups is its sum over the events |
| `ManagerLog.SummaryConserves` | src/manager_log.rs:199-244 | event, token and elapsed totals over the items equal those over the log |
| `ManagerLog.ItemQuotes` | src/manager_log.rs:213-236 | an item quotes the time of its group's first and last event, the last phase and the last reported outcome |
| `ManagerLog.ItemMaxima` | src/manager_log.rs:222-223 | its attempts and rounds are those of some event of the group, and at least every one's |
| `ManagerLog.GroupIs` | src/manager_log.rs:202-219 | an event joins the first item whose work id is an alias of its own, or starts one |
| `ManagerLog.OverflowIff` | src/manager_log.rs:224-231 | overflow means a group's tokens or seconds reach 2 to the 64 |
| `InstallCommit.EditsKeep` | scripts/install-memory-hooks.py:174-188 | a round of edits by others keeps the file-by-file account of what the run has made and undone |
| `InstallCommit.WriteKeeps` | scripts/install-memory-hooks.py:176-180 | a checked replacement keeps that account, with the earlier content and mode noted |
| `InstallCommit.UndoKeeps` | scripts/install-memory-hooks.py:182-187 | undoing the newest standing write puts back what was there before it, unless the file no longer reads as the run left it |
| `InstallCommit.Disk.Install` | scripts/install-memory-hooks.py:164-188 | succeeds iff every file reads as planned in its turn and no write fails; a successful run leaves each target with its new content or the others' later one; a failed run leaves every file as the others alone would have, except exactly the lost look-alikes |
| `InstallCommit.Disk.Rollback` | scripts/install-memory-hooks.py:181-188 | unwinds the written files newest first and leaves none standing |
| `InstallCommit.RollbackMissesIff` | scripts/install-memory-hooks.py:182-187 | after a failed run a file differs from what the others made it iff it is a target whose last edit by others fell between its write and its undo and left the installer's content |
| `InstallCommit.LookAlikeIsLost` | scripts/install-memory-hooks.py:182-187 | a run whose rollback puts the old content back over another program's file |
| `InstallCommit.InstallAlone` | scripts/install-memory-hooks.py:173-188 | with nobody else active, a run succeeds iff every file reads as planned and no write fails, and a failed run leaves the disk exactly as it was |
| `InstallConfigure.FixHandlersLoop` | scripts/install-memory-hooks.py:72-81 | refreshes exactly the handlers that are its own and reports whether there was one |
| `InstallConfigure.ConfigureEvent` | scripts/install-memory-hooks.py:59-91 | fails exactly on malformed entries; otherwise entries with own handlers refreshed, and one added if none was found |
| `InstallConfigure.Configure` | scripts/install-memory-hooks.py:47-91 | fails exactly on malformed settings; otherwise only the tool's own events change |
| `InstallConfigure.ConfiguredIsOk` | scripts/install-memory-hooks.py:47-91 | configured settings are accepted again |
| `InstallConfigure.ConfigureIdempotent` | scripts/install-memory-hooks.py:47-91 | configuring configured settings changes nothing |
| `InstallConfigure.ForeignHandlersKept` | scripts/install-memory-hooks.py:66-91 | every group keeps its place, every handler that is not the installer's own is unchanged and in place, its own get the new command and a flush the new timeout, and at most one group is appended |
| `InstallConfigure.FreshSettings` | scripts/install-memory-hooks.py:55-91 | settings without hooks get exactly the listed events, commands, timeouts, types and matcher of the tool |
| `InstallConfigure.OwnWordsIff` | scripts/install-memory-hooks.py:63-77 | a command is the installer's own iff it is its script with this tool and phase, run directly or by Python |
| `InstallConfigure.SettingsOkIff` | scripts/install-memory-hooks.py:48-76 | exactly which settings are refused |
| `CentralClaims.RenewalLoop` | src/central_claims.rs:250-296 | each request starts after its sleep, each failure report counts the current failing run, at most the last request starts after the stop flag is set, and the loop ends when and only when a check finds the flag set |
| `CentralClaims.WarningOncePerRun` | src/central_claims.rs:279-293 | in a maximal failing run every failure reports its position, and the warning fires exactly at the third |
| `CentralClaims.WarningsOnlyInRuns` | src/central_claims.rs:290-292 | a warning comes only after three failures in a row |
| `CentralClaims.WarningNeverEarly` | src/central_claims.rs:210-229 | at the configured spacing a warning never comes before a full lease since the last acknowledged renewal |
| `Events.OrphanedDispatchRuns` | src/events.rs:332-357 | the one-pass collection returns the started runs of the profile with no end event anywhere in the log |
| `Events.OrphansAre` | src/events.rs:332-357 | the orphans are listed once for each starting event of the profile whose run none of the three ending events ends, in order |
| `Events.OrphanIff` | src/events.rs:338-356 | the same for one run, by the fields of the events |
| `Events.EventLog.Reconcile` | src/events.rs:370-384 | succeeds iff no write fails; appends one closing event for each orphan in order, and a failing write leaves the closings before it |
| `Events.ReconcileLeavesNoOrphan` | src/events.rs:359-384 | after reconciliation the profile has no orphan, so repeating it adds nothing |
| `Events.ReconcileKeepsOtherProfiles` | src/events.rs:342-344 | complete or cut short, it leaves every other profile's orphans unchanged |
| `Events.SelectNewest` | src/events.rs:410-429 | keeps min(limit, count) events in stream order, each at or above every dropped one by timestamp then position |
| `Events.ByTimestampOrdered` | src/events.rs:416-417 | the stable sort of positions is ordered by timestamp, then position |
| `CurlHttp.ConfigValueIsEscape` | src/curl_http.rs:12-18 | the four chained replacements equal one escape for each character |
| `CurlHttp.QuotedValueReadsBack` | src/curl_http.rs:12-18 | curl's quoted-string reader gets the value back and stops at the closing quote; the escaped text has no line break |
| `CurlHttp.SplitStatus` | src/curl_http.rs:150-167 | splits at the last marker, and fails when there is none |
| `CurlHttp.StatusIff` | src/curl_http.rs:155-158 | a status is read iff the text is digits, at most one plus sign before them, below 65536 |
| `CurlHttp.AnswerIff` | src/curl_http.rs:150-167 | no answer without a status after the last marker; otherwise the body is what stands before it, less one newline |
| `CurlHttp.DigitsRoundTrip` | src/curl_http.rs:150-167 | for every body, markers and final newlines included, and every status text within 16 bits, leading zeros included, the framed output splits into exactly that body and status |
| `CurlHttp.FramingRoundTrip` | src/curl_http.rs:150-167 | the same for every body and every status number up to 65535 |
| `CurlHttp.SplitFramed` | src/curl_http.rs:150-167 | the byte-level method itself returns that body and status on framed output |

## Left out

- Process spawning, curl itself, git, PTY capture, provider probes and the claims server: I/O without visible semantics.
- JSON, TOML and YAML text: records are datatypes. Of malformed files only the version refusal of the availability state and unreadable logs are modelled.
- Redaction is the identity, and operator-label validation, cooldown computation and work-id aliases are inputs.
- Timestamps are integers, also where a note quotes one, with an unparsable case where the code parses them.
- AvailabilityStore.Store.Update: covers the record list; the temporary file and rename that make a write atomic are not modelled.
- AvailabilityReprobe.OnePassSuffices: is about histories without pool or instance labels, because with labels it is false (LabelsCanStarvePasses); StaleAfterPass covers all histories.
- BuildCache.StepInv: assumes that neither Cargo nor a user deletes the lock file inside a live target; entries of the target root that are not directories, or that someone outside the protocol removes before prune opens them, are not modelled.
- ContextEnforce.Enforce: the result omits the audit lists (largest sections, sources, issue section names).
- GeneratedArtifacts.GlobRegex: emits a syntax tree rather than regular expression text, so escaping is not modelled; fields are text rather than lossily decoded bytes.
- Notifications: error summaries are taken as already shortened, the deduplication window is constant over a run, and delivery of a notification is not modelled.
- Credentials: validation, quota bookkeeping and file permissions; fresh revisions are taken as never repeated.
- ManagerLog.CompletedAppendsAreLoaded: assumes of the encoding of a valid event only that it has no newline, decodes back, and that its strict prefixes do not decode.
- InstallCommit.Disk.Install: the window between the content check and the replacement, rollback writes that themselves fail, backups and symbolic links.
- InstallConfigure.Configure: shell splitting, path resolution and the python-name test are parameters; key order, YAML alias detaching and gateway settings are not modelled.
- CentralClaims.RenewalLoop: the failure count does not wrap at 32 bits, and the release call is not modelled.
- CurlHttp.QuotedValueReadsBack: curl's reader follows curl's documented configuration syntax, since it is not in the repository.
- Policy tables, quota bands, label priorities, message formatting, configuration display and command tables.
