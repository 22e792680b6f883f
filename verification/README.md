# Grape: a verified model

Grape sends a coding agent only what changed in a session and tells it what to stop trusting. This project models the
deterministic algorithms behind that idea in Dafny and proves what they keep over every input and every run.

- **Session ledger** (`LedgerTypes`, `Staleness`, `ContextDiff`, `SessionLedger`, `DurableBuild`, `LedgerInvariants`,
  `LedgerMemory`, `LedgerAgent`, `LedgerReconstruction`, `LedgerFreshness`, `LedgerHistory`, `LedgerRuns`,
  `LedgerAgentRuns`, `LedgerOmissions`, `LedgerCommits`, `LedgerPacks`, `LedgerExamples`, `LedgerResetExample`).
  `LedgerStore` is the database of stored dependencies, pack rows, sent rows and omitted rows; `BuildDurableContext` is
  one transaction over it, proved to take the tables from `old(State())` to `Next(old(State()), req)` and to answer
  `Outcome`. `LedgerAfter` runs any list of requests, for any mix of sessions. `AgentAfter` is an agent that does
  nothing but replay the packs of its session, and that holds nothing any more when it asks for a reset, which is what a
  reset is for (`src/mcp/tool-list.ts:43-46`). `LedgerCommits` decides which builds commit, `LedgerOmissions` which
  sections they omit, `LedgerPacks` what their packs and rows say.
- **Framing and fingerprints** (`McpFraming`, `StableParts`, `HashedBytes`, `ColonFields`, `WorktreeFingerprint`,
  `SnapshotFingerprint`).
- **Migrations** (`MigrationPlan`, `MigrationRuns`, `MigrationExamples`): a state machine whose runs may be cut off
  anywhere, over two orders of ids, the planner's and the table's.
- **Source selection** (`SeedSlots`, `RoundRobin`, `RankedSpread`, `SpreadLaws`, `TierSelection`,
  `SelectionGuarantees`, `SelectionByRank`).
- **Claim edges over three-valued scopes** (`ScopeComparison`, `ScopeValues`, `ClaimEdges`, `ClaimBlocking`).
- **Ignore globs** (`RegexSubset`, `IgnoreGlob`, `IgnorePolicy`): the emitted expression is parsed back and given its
  JavaScript meaning, which is proved equal to the meaning of the glob.
- **Token accounting** (`TokenAccounting`).

`Common` and `Ordering` hold list helpers, the code-unit string order and the stable sort.

Which builds commit is decided (`RunCommitsIff`): ids are joined by colons, artifact ids have one length and section ids
no colon, and so no two rows of a run ever meet in an id (`EveryBuildCommits`). Which sections a build omits is decided
by the artifacts alone (`RunOmitsIff`).

Five promises turn out to need a condition, and each is proved with its exact one:

- *Freshness.* Active in the ledger means the newest row of a section that no invalidation names, ties broken by item id
  (`src/core/storage/context-ledger/repositories.ts:239-329`). So a build can uncover an older row: when it invalidates
  the listed one of a section and either does not send the section again, or sends it at a time at which an older row
  still counts as newer. On any clock, no active item is stale after a build if and only if every uncovered row was seen
  unchanged (`FreshAfterBuildIff`), and `UncoveredIff` says when there is one. All new rows are listed if and only if
  each is newer than the kept rows of its section (`NewRowsListedIff`), and reset and steady state follow from that
  (`ActiveIsExactlyResentIff`, `SteadyStateSendsPinnedOnlyIff`, `SteadyStateInvalidatesNothingIff`). When no new row is
  hidden, as on an advancing clock, freshness comes down to three comparisons on the rows that resurface
  (`FreshWhenNoneHiddenIff`). `StaleRowResurfaces` and `EqualTimestampsHideResentRow` are concrete runs.
- *Reconstruction.* Over every run the agent holds exactly the surviving rows sent since its session last started over,
  the last of all that survive (`RunKeepsAgentInSync`, `RememberedIsSuffix`). It reconstructs the artifact if and only
  if each omitted section agrees with what arrived last among those (`RunReconstructsIff`); on an advancing clock, if
  and only if the row behind each omission is one of them (`RunReconstructsOnAdvancingClockIff`). On any clock that
  decides, for each omission, whether the agent held and still holds its piece (`RunOmissionIsHeldIff`). A reset build
  itself omits nothing (`RunReconstructsAtReset`), but it invalidates listed rows only. One below them survives that the
  agent no longer has, and a later build may omit a section on its strength: `ResetBreaksReconstruction` is four builds
  at the times 1 to 4. The agent remembers all that survives if and only if every reset so far left nothing behind
  (`RemembersAllIff`), that is, found all that survived listed (`ResetLeavesNothingIff`); then, as in a session without
  resets, an advancing clock is enough (`RunReconstructs`, `RunReconstructsWithoutResets`). On a clock that stands still
  the newest row need not be the last one, since artifact ids are hashes: `EqualTimestampsBreakReconstruction`.
- *Send history.* On any clock that does not go back, the surviving rows of a section share their first send, no later
  than any of them (`RunKeepsFirstSend`). Their counts grow in send order throughout a run if and only if each build
  found the largest count of the sections it sent on their listed rows (`RunCountsGrowIff`);
  `EqualTimestampsStallCounts` is a run at one instant in which they do not.
- *Re-planning.* What is committed is always a prefix of what is available. The plan checks order by locale and the
  table lists rows by byte value, so planning again is accepted if and only if the two orders agree on the applied ids
  (`ReplanningIff`), that is, for a planner without ties, if and only if they are sorted in both
  (`AgreeIffSortedInBoth`). With the ids `a` and `B` one run commits both and every later plan throws
  (`LocaleOrderDefeatsReplanning`).
- *Chunk invariance.* Cutting a byte stream into chunks changes nothing if and only if every raw line, a trailing CR
  counted, fits the frame limit (`ChunkInvarianceIff`).

Smaller ones of the same kind: `sameStringSet` decides equality exactly for left lists without a repeated element; which
messages are delivered before a bad line depends on the cut (`DeliveredBeforeBadLine`, `CutDecidesDelivery`); a scope
that learns more keeps its mismatches exactly while its package root and flags stay (`LearningNeverReconcilesIff`); a
`directory/` rule covers what lies below it up to a line terminator (`LiteralDirectoryCoversIff`); hashed parts are told
apart but for unpaired surrogates; a colon in a content hash would merge two fingerprints, and a short one two parts of
a snapshot; a NUL in a claim id merges two pairs; `**` stops at a line terminator; a pattern with an inner slash does
not cover what lies below it; test seeds beyond the reserved number leave slots unused (`WorkConservingIff`).

## Model

| member | source | states |
|---|---|---|
| Staleness.LocalIdRoundTrip | src/app/durable-context-staleness.ts:144-147 | stripping the artifact prefix undoes adding it, whatever colons the ids hold |
| Staleness.SameStringSetDecidesEquality | src/app/durable-context-staleness.ts:138-142 | on a duplicate-free left list the length-and-membership check holds iff the right list is duplicate-free with the same elements |
| Staleness.RepeatedLeftDefeatsSameStringSet | src/app/durable-context-staleness.ts:138-142 | with a repeated left element the check accepts two different sets |
| Staleness.SameStringSetDecidesIff | src/app/durable-context-staleness.ts:138-142 | the check accepts equal sets only, whatever the right list, iff the left one repeats nothing |
| Staleness.DependenciesForArtifact | src/app/durable-context-staleness.ts:111-125 | the cached lookup returns the stored dependencies and leaves a cache that agrees with the tables |
| Staleness.IsPriorItemStale | src/app/durable-context-staleness.ts:68-109 | with a sound cache, the answer of the rule that reads every table again |
| Staleness.PartitionPriorContextByStaleness | src/app/durable-context-staleness.ts:24-66 | the memoised partition is the filter by the uncached rule, both sides in order |
| Staleness.PartitionLosesNothing | src/app/durable-context-staleness.ts:35-66 | every prior item lands on exactly one side, as often as it was listed |
| ContextDiff.CreateInMemoryContextDiff | src/core/diff/in-memory-context-diff.ts:38-108 | one pass classifies each section against the session's last item for it; pack length is sections plus omissions, unsafe omissions are 0 |
| ContextDiff.PreviousIsLastOfSession | src/core/diff/in-memory-context-diff.ts:39-45 | a section is compared with the last prior item of this session for it; items of other sessions do not count |
| ContextDiff.SentItemsOfPack | src/core/diff/in-memory-context-diff.ts:51-107 | the sent items of a diff are one per section not omitted, in section order |
| SessionLedger.InsertAll | src/app/durable-context-build.ts:166-174 | row inserts succeed iff no primary key repeats, and then append the rows in order |
| SessionLedger.NewestExists | src/core/storage/context-ledger/repositories.ts:304-318 | a section with any surviving row has a newest one, so the listing drops no section |
| DurableBuild.LedgerStore.PersistArtifact | src/app/durable-context-records.ts:17-42 | stores the dependencies under prefixed ids, or fails on a repeated artifact or key |
| DurableBuild.LedgerStore.BuildDurableContext | src/app/durable-context-build.ts:72-211 | one build is one transaction: the whole new state and answer, or every table as before |
| LedgerInvariants.NewSentRows | src/app/durable-context-build.ts:147-161 | a build sends exactly the sections its diff does not omit, one row each |
| LedgerInvariants.OldRowInvalidated | src/app/durable-context-build.ts:125-146 | a build invalidates exactly the stale listed rows of its own session |
| LedgerInvariants.SurvivingAfter | src/app/durable-context-build.ts:125-174 | the session's surviving rows afterwards are those kept, then those sent |
| LedgerInvariants.OtherSessionsUntouched | src/app/durable-context-build.ts:125-174 | building for one session changes no row another session holds or lists |
| LedgerInvariants.BuildKeepsWellFormed | src/app/durable-context-records.ts:81-176 | keys stay unique, each sent row has its pack row, invalidations name sent rows |
| LedgerAgent.ReplayInvalidations | src/app/durable-context-records.ts:56-79 | replaying a build's invalidations drops exactly the stale items the agent holds |
| LedgerAgent.ReplayTracks | src/app/durable-context-build.ts:125-174 | from any ledger, an agent holding some of the surviving rows, in order, afterwards holds those of them that are not stale, then the rows sent |
| LedgerAgent.BuildKeepsAgentInSync | src/app/durable-context-build.ts:125-174 | an agent holding the surviving rows, in order, still does after replaying the context pack |
| LedgerMemory.SinceIsSuffix | src/app/durable-context-records.ts:81-112 | the surviving rows sent from some point on are the last of all surviving rows |
| LedgerMemory.SinceAfterBuild | src/app/durable-context-build.ts:125-174 | a build leaves of the rows since any point those not stale, and adds what it sends |
| LedgerMemory.ResetLeavesNothingIff | src/app/durable-context-staleness.ts:27-32 | a reset leaves no row standing iff all that survived was listed |
| LedgerReconstruction.PreviousIsCurrentRow | src/core/diff/in-memory-context-diff.ts:39-52 | the diff compares a section with the one listed, non-stale row of the session for it |
| LedgerReconstruction.OmittedHasCurrentRow | src/core/diff/in-memory-context-diff.ts:52-99 | every omission rests on a listed, non-stale row of this session with that content |
| LedgerReconstruction.BuildReconstructsIff | src/app/durable-context-build.ts:125-174 | from any ledger and any agent that holds some of the surviving rows, in order: it ends with the artifact iff each omission agrees with what arrived last among them |
| LedgerReconstruction.SendOrderOmissionsAgreeIff | src/core/storage/context-ledger/repositories.ts:304-318 | when later rows are newer, the omissions agree with the last of the surviving rows iff the row behind each omission is among them |
| LedgerReconstruction.BuildKeepsSendOrder | src/app/durable-context-records.ts:81-112 | a build on an advancing clock keeps later rows newer |
| LedgerRuns.RunWellFormed | src/app/durable-context-build.ts:72-211 | every reachable ledger is well formed |
| LedgerRuns.RunKeepsFirstSend | src/app/durable-context-records.ts:81-112 | over every run on a clock that does not go back, the surviving rows of a section share one first-sent time, no later than any of their own |
| LedgerRuns.RunCountsGrowIff | src/app/durable-context-records.ts:107-109 | over every run, on any clock, send counts grow in send order throughout iff each build of the session found the largest counts on the listed rows of what it sent |
| LedgerRuns.RunKeepsCounts | src/app/durable-context-records.ts:107-109 | on an advancing clock they do |
| LedgerRuns.RunKeepsSendOrder | src/core/storage/context-ledger/repositories.ts:304-318 | over every run on an advancing clock, later rows of a section are newer |
| LedgerRuns.StoredManifestReadsBack | src/app/durable-context-records.ts:31-41 | a manifest stored under prefixed ids gives the same lookups when read back |
| LedgerRuns.RunRecordsArtifacts | src/app/durable-context-records.ts:151-176 | over every run each stored row and its inputs say what the artifact it was sent from said |
| LedgerRuns.NotStaleIsStillTrue | src/app/durable-context-staleness.ts:68-109 | a row the rule passes has the current branch and commit, and each ref its section cited has the hash it had then |
| LedgerRuns.RunFreshIff | src/app/durable-context-build.ts:125-174 | over every run, on any clock, nothing active is stale iff every row the last build uncovered was seen unchanged |
| LedgerRuns.RunFreshOnAdvancingClockIff | src/app/durable-context-build.ts:125-174 | on an advancing clock, iff every row that resurfaced has the artifact's branch, commit and manifest |
| LedgerRuns.RunActiveItemsStillTrue | src/app/durable-context-staleness.ts:68-109 | over every run, on any clock, each active item that was not uncovered is still true of the newest artifact |
| LedgerAgentRuns.RunKeepsAgentInSync | src/app/durable-context-build.ts:72-211 | over every run the agent holds exactly the surviving rows of its session sent since its last committed reset, in order |
| LedgerAgentRuns.RememberedIsSuffix | src/app/durable-context-build.ts:72-211 | these are the last of the rows that survive |
| LedgerAgentRuns.RemembersAllIff | src/app/durable-context-staleness.ts:27-32 | throughout a run they are all that survive iff each committed reset left nothing standing |
| LedgerAgentRuns.RunReconstructsIff | src/app/durable-context-build.ts:125-174 | over every run, on any clock and with any resets, the agent ends with the newest artifact iff the last build's omissions agree with what arrived last since the session started over |
| LedgerAgentRuns.RunReconstructsOnAdvancingClockIff | src/app/durable-context-build.ts:125-174 | on an advancing clock, iff the row behind each omission was sent since the session started over |
| LedgerAgentRuns.RunReconstructs | src/app/durable-context-build.ts:125-174 | which is so when the resets before the last build left nothing standing |
| LedgerAgentRuns.RunReconstructsWithoutResets | src/app/durable-context-build.ts:125-174 | and in a session that never reset |
| LedgerAgentRuns.RunReconstructsAtReset | src/mcp/tool-list.ts:43-46 | on any clock, a committed reset build hands an agent that lost everything the whole artifact |
| LedgerAgentRuns.RunReconstructsText | src/core/diff/in-memory-context-diff.ts:110-136 | with the compiler's content hashes an agent that ends with the artifact holds the very title and body of each section |
| LedgerAgentRuns.RunOmissionIsHeldIff | src/core/diff/in-memory-context-diff.ts:52-99 | over every run, on any clock and with any resets, an omission rests on a listed, non-stale row with that content, whose piece the agent held before and holds after iff it was sent since the session started over |
| LedgerAgentRuns.RunOmissionsAreHeld | src/core/diff/in-memory-context-diff.ts:52-99 | so the agent held and holds what is omitted when the resets so far left nothing standing |
| LedgerAgentRuns.RunOmissionsHoldText | src/core/diff/in-memory-context-diff.ts:52-99 | and a held piece of an omitted section has its title and body |
| LedgerOmissions.StaleIffChanged | src/app/durable-context-staleness.ts:77-109 | a row is kept iff branch and commit of its artifact are the current ones and either the manifests are equal or the section cites the same refs, each known and with the hash it had |
| LedgerOmissions.RunStaleIff | src/app/durable-context-staleness.ts:68-147 | over every run, of every stored row and any artifact, in terms of the artifact it was sent from |
| LedgerOmissions.RunOmitsIff | src/core/diff/in-memory-context-diff.ts:51-100 | over every run of compiled requests, on any clock: a section is omitted iff it is not pinned, the build is no reset, and a listed row has its content, branch and commit and, ref by ref, the hashes it cites |
| LedgerCommits.DiffKeysIff | src/core/diff/in-memory-context-diff.ts:102-132 | the items of a diff have different ids iff no two sections share both id and state |
| LedgerCommits.BuildKeepsPlain | src/app/durable-context-records.ts:81-176 | every row carries the id its fields make; a build keeps that |
| LedgerCommits.BuildCommitsIff | src/core/storage/migrations/0001_initial_storage.sql:153-245 | from any such ledger: a build commits iff the artifact is the session's and has a new id, no dependency id repeats, and no two sections share id and state |
| LedgerCommits.RunCommitsIff | src/app/durable-context-build.ts:72-211 | over every run, with any sessions and resets, on any clock |
| LedgerCommits.RunAnswers | src/app/durable-context-build.ts:72-217 | and else it answers which of the two went wrong, with the ledger as before |
| LedgerCommits.EveryBuildCommits | src/app/durable-context-records.ts:31-41 | in a run of requests for their own sessions, with artifact ids used once and section and dependency ids unique within each, every build commits |
| LedgerCommits.InvalidationAsSectionRollsBack | src/app/durable-context-records.ts:64 | a section id that spells out an invalidation rolls the build back |
| LedgerPacks.PackTellsSection | src/core/diff/in-memory-context-diff.ts:51-136 | a section's items in a context pack are exactly these: PINNED, NEW or CHANGED with its body, or OMIT_UNCHANGED and RESTORE_AVAILABLE with an empty body and its restore token; each names the row it was compared with |
| LedgerPacks.PackTellsStale | src/app/durable-context-records.ts:56-79 | the invalidations come first, one for each stale row in order, and name it |
| LedgerPacks.DependencyRowSays | src/app/durable-context-records.ts:31-41 | the manifest is stored entry by entry under prefixed ids |
| LedgerPacks.PackRowSays | src/app/durable-context-records.ts:151-176 | a pack row says what its item says, with its section's refs; only an invalidation names the row it drops |
| LedgerPacks.OmissionsAreRecorded | src/app/durable-context-records.ts:121-149 | every omitted section has an omitted row with its token and content hash |
| LedgerPacks.NewRowSays | src/app/durable-context-records.ts:81-112 | a sent row carries its section, place and time, and one more than the count of the row the section was listed with |
| LedgerPacks.ListedInSectionOrder | src/core/storage/context-ledger/repositories.ts:318-329 | the listed rows stand in the order of their section ids |
| LedgerFreshness.ListedStaleness | src/app/durable-context-staleness.ts:68-109 | joining pack rows to the active list judges each listed row by the pack row it was sent with |
| LedgerFreshness.RowStaleIff | src/app/durable-context-staleness.ts:77-109 | a stored row is stale iff its branch or commit differs, or its manifest does and the cited refs do not hold |
| LedgerFreshness.ListedAfterBuild | src/core/storage/context-ledger/repositories.ts:239-329 | on any clock, the active list after a build is what is newest of its section among the rows kept and sent |
| LedgerFreshness.NewRowsListedIff | src/core/storage/context-ledger/repositories.ts:304-318 | all rows a build sends are listed iff each is newer than the kept rows of its section |
| LedgerFreshness.UncoveredIff | src/core/storage/context-ledger/repositories.ts:304-329 | a row that is not current comes to be listed iff an invalidated item of a gone section covered an older row, or a kept row is newer than a resent one |
| LedgerFreshness.FreshAfterBuildIff | src/app/durable-context-staleness.ts:68-109 | on any clock, no active item is stale for the artifact just built iff every uncovered row was seen unchanged |
| LedgerFreshness.FreshWhenNoneHiddenIff | src/app/durable-context-staleness.ts:77-86 | when no new row is hidden, iff every row that resurfaces has the artifact's branch, commit and manifest |
| LedgerFreshness.ActiveAfterBuild | src/core/storage/context-ledger/repositories.ts:239-329 | when no new row is hidden, the active list is what was sent, what is current and not resent, and what resurfaces |
| LedgerFreshness.ResurfacesIff | src/core/storage/context-ledger/repositories.ts:304-329 | a row resurfaces iff an invalidated item of a section not in the artifact covered an older row |
| LedgerFreshness.FullResend | src/core/diff/in-memory-context-diff.ts:51-100 | with nothing current every section is sent and none omitted |
| LedgerFreshness.NothingCurrent | src/app/durable-context-staleness.ts:27-32 | a reset, or prior items all from another branch or commit, leaves nothing current |
| LedgerFreshness.ActiveIsExactlyResentIff | src/app/durable-context-staleness.ts:77-86 | on any clock, after such a build exactly the new rows are active iff no invalidated item of a gone section covered an older row and every new row is newest |
| LedgerFreshness.SectionIsActiveAfterIff | src/app/durable-context-build.ts:125-174 | on any clock, after a build every section has a listed row, fresh and with its content iff a row holding it back is |
| LedgerFreshness.SteadyStateSendsPinnedOnlyIff | src/core/diff/in-memory-context-diff.ts:51-100 | on any clock, building the same context again omits exactly the sections not pinned iff every row holding one back is as good as new |
| LedgerFreshness.SteadyStateSendsPinnedOnly | src/core/diff/in-memory-context-diff.ts:51-100 | so it sends pinned sections only whenever the build before hid none of its rows |
| LedgerFreshness.SteadyStateInvalidatesNothingIff | src/app/durable-context-staleness.ts:68-109 | on any clock, it invalidates nothing iff every row the build before uncovered was seen unchanged |
| LedgerHistory.LatestPriorIsListed | src/app/durable-context-records.ts:193-201 | the row a resend continues from is the one the section is listed with |
| LedgerHistory.BuildKeepsFirstSend | src/app/durable-context-records.ts:81-112 | a build on a clock that does not go back keeps the shared first-sent time, also when it invalidates and resends |
| LedgerHistory.BuildKeepsCountsIff | src/app/durable-context-records.ts:107-109 | a build keeps send counts growing iff the listed row of each section it sends carries the largest count of that section's surviving rows |
| LedgerExamples.TiedRunMisreconstructs | src/core/storage/context-ledger/repositories.ts:304-318 | every run of text, change, first text again at one instant, the change under a smaller id, leaves the agent with the change |
| LedgerExamples.EqualTimestampsBreakReconstruction | src/core/storage/context-ledger/repositories.ts:304-318 | one such run, concretely |
| LedgerExamples.StaleRowResurfaces | src/core/storage/context-ledger/repositories.ts:304-329 | a concrete run after which a stale row is active, with or without a reset |
| LedgerExamples.StandingClockHidesResentRow | src/core/storage/context-ledger/repositories.ts:304-318 | every run of three builds of a pinned section at one instant, under ever smaller ids, the third on another commit, leaves a stale row listed for it |
| LedgerExamples.EqualTimestampsHideResentRow | src/core/storage/context-ledger/repositories.ts:304-318 | one such run, concretely, with no covered row of a gone section |
| LedgerExamples.StandingClockStallsCounts | src/app/durable-context-records.ts:107-109 | every such run on one commit ends with send counts that do not grow, though they did after two builds |
| LedgerExamples.EqualTimestampsStallCounts | src/app/durable-context-records.ts:107-109 | one such run, concretely |
| LedgerResetExample.ResetForgets | src/app/durable-context-staleness.ts:27-32 | from any ledger: of two surviving rows of a section the reset invalidates the listed one; building where the other came from omits the section, and the agent that started over has nothing of it |
| LedgerResetExample.ResetRunMisreconstructs | src/app/durable-context-build.ts:125-174 | every committed run of a text, a change of it, a reset without sections and the first text again, on an advancing clock, ends that way |
| LedgerResetExample.ResetBreaksReconstruction | src/app/durable-context-build.ts:125-174 | one such run, concretely, at the times 1 to 4 |
| McpFraming.McpMessageBuffer.Append | src/mcp/protocol.ts:74-77 | returns the drained messages or first error; normally leaves one unterminated line within the limit |
| McpFraming.McpMessageBuffer.Flush | src/mcp/protocol.ts:79-84 | decodes what is left as a last line and empties the buffer |
| McpFraming.McpMessageBuffer.DrainDelimitedLines | src/mcp/protocol.ts:86-104 | the loop takes terminated lines one by one; an error keeps or drops the rest as the source does |
| McpFraming.McpMessageBuffer.ParseRawLine | src/mcp/protocol.ts:106-122 | strips a CR, rejects long, blank and header-style lines, and resets the buffer on a rejected frame |
| McpFraming.LineOutcomes | src/mcp/protocol.ts:106-122 | a line, with or without a CR, is too long, blank, a header, a message or not JSON, decided in that order |
| McpFraming.DrainThenMore | src/mcp/protocol.ts:86-104 | what a drain leaves, followed by more bytes, drains to what the whole would |
| McpFraming.FeedIsChunkInvariant | src/mcp/protocol.ts:66-104 | every way of cutting a good stream gives its messages, in order |
| McpFraming.LongRawLineFailsPrefix | src/mcp/protocol.ts:93-101 | a stream with a longer raw line can be cut so that feeding it fails |
| McpFraming.ChunkInvarianceIff | src/mcp/protocol.ts:66-127 | for a stream whose lines parse, all cuts agree iff every raw line fits |
| McpFraming.RoundTrip | src/mcp/protocol.ts:38-40 | encoded messages, cut anywhere, decode to the messages |
| McpFraming.BufferAfterAll | src/mcp/protocol.ts:74-84 | and nothing is left in the buffer |
| McpFraming.DeliveredIs | src/mcp/protocol.ts:74-104 | for any stream, what is delivered is what the chunks before the first failing one drain to, and the error is that of draining with the failing one |
| McpFraming.DeliveredBeforeBadLine | src/mcp/protocol.ts:93-104 | when a bad line follows good ones, what is delivered are the messages of the chunks that end before the bad line does; those parsed in its own chunk are lost |
| McpFraming.BadLineFails | src/mcp/protocol.ts:86-127 | draining up to a bad line fails with its error; only a line that is not JSON leaves the bytes behind it in the buffer |
| McpFraming.CutDecidesDelivery | src/mcp/protocol.ts:93-104 | a good and a bad line in one chunk deliver nothing, in two chunks the good message |
| StableParts.HashStableParts | src/core/evidence/evidence-hash.ts:7-16 | the loop feeds the hash the length-prefixed text of the whole list |
| StableParts.DecodeEncode | src/core/evidence/evidence-hash.ts:7-16 | a decoder recovers every list of strings, whatever they contain |
| StableParts.EncodePartsInjective | src/core/indexing/index-hash.ts:3-12 | two different lists never give the same text |
| HashedBytes.FeedHash | src/core/evidence/evidence-hash.ts:7-16 | the loop feeds the hash the UTF-8 bytes of length, colon, part and newline of each part |
| HashedBytes.HashedBytesIff | src/core/evidence/evidence-hash.ts:7-16 | two lists of UTF-16 strings feed the same bytes iff they are the same but for unpaired surrogates, each of which becomes U+FFFD |
| HashedBytes.WellFormedPartsDecided | src/core/indexing/index-hash.ts:3-12 | so the bytes decide every list of well-formed strings |
| HashedBytes.LoneSurrogatesMerge | src/core/evidence/evidence-hash.ts:7-16 | two lone surrogates are not told apart |
| ColonFields.LastField | src/core/git/repo-snapshot.ts:232-242 | a colon-free last field can be told from any text before it |
| WorktreeFingerprint.TagSeparates | src/core/git/repo-snapshot.ts:123-130 | the tags show where one list of parts ends and the next begins |
| WorktreeFingerprint.RejectedPartDecides | src/core/git/repo-snapshot.ts:232-242 | a rejected-file part decides path, reason, privacy and metadata, absent fields counting as empty |
| WorktreeFingerprint.PartsDecideWorktree | src/core/git/repo-snapshot.ts:123-130 | equal part lists mean the same branch, commit, status and file lists, colons in paths included |
| WorktreeFingerprint.ColonInHashConfuses | src/core/git/repo-snapshot.ts:128 | with a colon in the hash field the border between path and hash is lost |
| WorktreeFingerprint.FingerprintIff | src/core/git/repo-snapshot.ts:263-272 | the hashed texts are equal iff the worktrees are the same |
| SnapshotFingerprint.ListsSeparate | src/core/git/repo-snapshot.ts:63-73 | without tags, the last fields still tell dirty paths, files and rejected files apart |
| SnapshotFingerprint.SnapshotFingerprintIff | src/core/git/repo-snapshot.ts:60-73 | with full-length digests and real sizes the hashed snapshot texts are equal iff the snapshots are the same |
| SnapshotFingerprint.ShortHashConfuses | src/core/git/repo-snapshot.ts:71-72 | with digests of any length a file and a rejected file can give the same part |
| MigrationPlan.AssertUniqueMigrationIds | src/core/storage/migration-plan.ts:62-73 | the set-building loop accepts iff no id repeats |
| MigrationPlan.AssertSortedById | src/core/storage/migration-plan.ts:75-82 | for any weak order of the planner's, comparing with a sorted copy accepts iff no id stands before a smaller one |
| MigrationPlan.AssertChecksums | src/core/storage/migration-plan.ts:84-102 | accepts iff every checksum, compatible ones included, is 64 lower-case hexadecimal digits |
| MigrationPlan.ValidChecksumIff | src/core/storage/migration-plan.ts:84-102 | a checksum passes iff it is 64 characters out of 0123456789abcdef |
| MigrationPlan.CheckApplied | src/core/storage/migration-plan.ts:36-44 | passes iff each applied row names an available migration that accepts its checksum; else the first that does not decides the error |
| MigrationPlan.ChecksumDecides | src/core/storage/migration-plan.ts:104-112 | in an accepted history, a row is accepted with another checksum iff that is the migration's own or one it lists as compatible |
| MigrationPlan.SplitsAtTheirNumber | src/core/storage/migration-plan.ts:46-60 | a list that splits behind unique, known applied ids splits at their number |
| MigrationPlan.AppliedAreFirst | src/core/storage/migration-plan.ts:46-60 | when no two ids tie, an accepted history lists the first migrations in their order |
| MigrationPlan.PlanPendingStorageMigrations | src/core/storage/migration-plan.ts:20-60 | accepts iff both lists are unique and sorted, checksums are valid and the applied ids are the first ones, and then alreadyApplied and pending are the list cut there; each check fails in its turn |
| MigrationRuns.ReadBackSortedIff | src/core/storage/sqlite-runtime.ts:84-105 | what the table lists is sorted for the planner iff the two orders agree on the applied ids |
| MigrationRuns.PlannableIff | src/core/storage/migration-plan.ts:20-60 | a plan accepts exactly the catalogs and databases of the invariant on whose applied ids the orders agree |
| MigrationRuns.StepKeepsInv | src/core/storage/sqlite-runtime.ts:34-72 | every step, crash and upgrade keeps what is committed a prefix of what is available |
| MigrationRuns.CommittedIsAlwaysAPrefix | src/core/storage/sqlite-runtime.ts:34-72 | over every behaviour the committed rows, in commit order, are a prefix of the available migrations |
| MigrationRuns.ReplanningIff | src/core/storage/sqlite-runtime.ts:34-72 | over every behaviour the next plan is accepted iff the orders agree on the ids applied so far |
| MigrationRuns.AlwaysReplannableIff | src/core/storage/sqlite-runtime.ts:34-72 | a catalog is planned again without fail, however far applied, iff the orders agree on all of it |
| MigrationRuns.AgreeIffSortedInBoth | src/core/storage/migration-plan.ts:75-82 | for a planner without ties the orders agree on its sorted ids iff these are sorted for the table too |
| MigrationRuns.FinishedLeavesNothing | src/core/storage/sqlite-runtime.ts:66-72 | a run with nothing left has applied everything; the next one can start iff the orders agree, and has nothing to do |
| MigrationExamples.LocaleOrderDefeatsReplanning | src/core/storage/sqlite-runtime.ts:84-105 | a run of the ids a and B, sorted for the planner only, commits both and is never planned again |
| MigrationRuns.OnlyCommitChangesRows | src/core/storage/sqlite-runtime.ts:48-64 | the database changes only on a commit, by exactly the next row |
| MigrationRuns.RefusedStaysIdle | src/core/storage/sqlite-runtime.ts:34-46 | no run starts over objects that are not its own, from a script that is not the one hashed, or over a row no migration vouches for |
| MigrationRuns.ForeignDatabaseIsLeftAlone | src/core/storage/sqlite-runtime.ts:122-145 | over every behaviour, later versions included, a database with other objects and no migration table stays as it is |
| MigrationRuns.MigrationDatabase.ApplyOne | src/core/storage/sqlite-runtime.ts:48-64 | one transaction: commits the script and its row iff the script runs and neither id nor file name is taken, else leaves the database as it was |
| MigrationRuns.MigrationDatabase.ApplyStorageMigrations | src/core/storage/sqlite-runtime.ts:26-73 | refuses for the stated reasons only and untouched, or runs to an idle prefix state; all is applied, row by row, iff the pending scripts run, the table is made in time and no file name repeats; it then returns iff the orders agree on the catalog, and otherwise throws on planning again |
| SeedSlots.ComputeReservedSeedSlots | src/core/retrieval/seed-slots.ts:19-44 | the two slot counts share the cap; test slots are the most that their ratio, the absolute maximum and the seeds there are allow, and a lone slot goes to a test seed only without explicit ones |
| RoundRobin.SpreadRankedGroups | src/core/retrieval/tier-selection.ts:326-347 | the loop terminates and computes the interleaving up to the first round that gives nothing |
| RoundRobin.TakenInRounds | src/core/retrieval/tier-selection.ts:333-345 | each element is taken once, ordered by position in its group and then by group |
| RoundRobin.InterleavingIsFair | src/core/retrieval/tier-selection.ts:333-345 | in every prefix two groups' counts differ by at most one until the one behind is exhausted |
| RoundRobin.InterleaveKeepsAllIff | src/core/retrieval/tier-selection.ts:326-347 | the interleaving is a permutation iff no ref is empty |
| RankedSpread.GroupRanked | src/core/retrieval/tier-selection.ts:230-241 | the grouping loop gives one group per key in order of first appearance, each the refs with that key, and the rest |
| RankedSpread.GroupingConserves | src/core/retrieval/tier-selection.ts:230-241 | grouping loses and invents nothing |
| RankedSpread.GroupsTakeTurnsByRank | src/core/retrieval/tier-selection.ts:242-256 | groups take turns in the order of their best-ranked refs, the unscoped last |
| RankedSpread.SpreadRankedContextRefs | src/core/retrieval/tier-selection.ts:214-257 | the package level computes the nested spread |
| RankedSpread.SpreadRankedLanguageRefs | src/core/retrieval/tier-selection.ts:259-299 | the language level computes the nested spread |
| RankedSpread.SpreadRankedEvidenceRoleRefs | src/core/retrieval/tier-selection.ts:301-324 | the evidence level computes its spread, missing roles forming a group of their own |
| RankedSpread.SpreadPermutes | src/core/retrieval/tier-selection.ts:214-324 | the three-level spread is a permutation of every list of non-empty refs |
| SpreadLaws.KeyComesOutInOrder | src/core/retrieval/tier-selection.ts:214-347 | where there are two keys to spread over, the refs of one key come out as the level below orders them |
| SpreadLaws.KeysShare | src/core/retrieval/tier-selection.ts:326-347 | and in every prefix two keys' counts differ by at most one, until the one behind has no more |
| SpreadLaws.SpreadKeepsKinds | src/core/retrieval/tier-selection.ts:214-324 | through all three levels, refs of one package, language and role keep their order |
| SpreadLaws.NothingToSpread | src/core/retrieval/tier-selection.ts:220-231 | with at most one of each, the list stays as it is |
| TierSelection.PartitionByTier | src/core/retrieval/tier-selection.ts:122-151 | each tier gets the refs whose strongest reason puts them there, in order |
| TierSelection.RankedIsCanonical | src/core/retrieval/semantic-candidates.ts:60-74 | ranking by score and then ref depends only on which refs there are |
| TierSelection.EvidenceRolesBySourceRef | src/core/retrieval/tier-selection.ts:162-180 | the role map holds each ref's strongest evidence role, if any |
| TierSelection.TakeFromTier | src/core/retrieval/tier-selection.ts:190-206 | appends the first unseen refs up to the limit |
| TierSelection.OfferedFacts | src/core/retrieval/tier-selection.ts:40-65 | what a tier offers after ranking and spreading is the tier, without repeats |
| TierSelection.SelectTieredSourceRefs | src/core/retrieval/tier-selection.ts:32-90 | the four takes in turn |
| SelectionGuarantees.CountForReason | src/core/retrieval/task-source-retrieval.ts:505-514 | counts the candidates with a reason |
| SelectionGuarantees.SlotsSeeTheTiers | src/core/retrieval/task-source-retrieval.ts:282-291 | the counts behind the slots are the sizes of tiers 1a and 1b |
| SelectionGuarantees.SelectSources | src/core/retrieval/task-source-retrieval.ts:282-299 | the wiring: slots from the candidates that are selected from |
| SelectionGuarantees.NearlyWorkConserving | src/core/retrieval/tier-selection.ts:64-90 | no repeats, only candidates, within the cap, which is reached unless all but test seeds are in |
| SelectionGuarantees.WorkConservingIff | src/core/retrieval/seed-slots.ts:19-44 | how many are selected, and as many as fit iff the unreserved test seeds could not have been used |
| SelectionGuarantees.ReservedTestSeedsTaken | src/core/retrieval/tier-selection.ts:67-78 | exactly the reserved number of test seeds is taken, one at least if there is one and room for two |
| SelectionGuarantees.StrongerTiersFirst | src/core/retrieval/tier-selection.ts:67-90 | a tier 2 or 3 ref is selected only if every tier 1a ref is, a tier 3 ref only if every tier 2 ref is |
| SelectionGuarantees.SelectionIgnoresInsertionOrder | src/core/retrieval/tier-selection.ts:122-188 | the same entries in any insertion order give the same list |
| SelectionByRank.RankedByScore | src/core/retrieval/semantic-candidates.ts:60-74 | scores, those of the last candidates and 0 without one, do not increase along the ranking; equal ones stand by name |
| SelectionByRank.PlaceOfRef | src/core/retrieval/tier-selection.ts:349-354 | the package of a ref is read off its path, else taken from metadata, and an empty name is none |
| SelectionByRank.BestOfItsKindFirst | src/core/retrieval/tier-selection.ts:32-90 | no ref of a tier is left out for one it outranks of the same package, language and role, nor for any where the tier has at most one of each |
| SelectionByRank.PackagesShareTheTier | src/core/retrieval/tier-selection.ts:214-257 | of what is taken of a tier, two packages' counts differ by at most one, until the one behind has no more |
| SelectionByRank.TierByReasons | src/core/retrieval/tier-selection.ts:153-160 | which reasons put a ref in which tier |
| SelectionByRank.ReasonsDecideFirst | src/core/retrieval/tier-selection.ts:64-90 | a ref that is no seed is selected only if every explicit seed is, and one without evidence only if every ref with evidence is, unreserved test seeds aside |
| SelectionByRank.RoleIsStrongestEvidence | src/core/retrieval/tier-selection.ts:162-180 | in tier 2 alone refs are spread by role, each under its strongest evidence: failure link, related test, symbol match |
| ScopeComparison.MutableScopeComparison.CompareRequiredStringDimensions | src/core/scope/scope-dimensions.ts:89-102 | records exactly the verdict on a required dimension |
| ScopeComparison.MutableScopeComparison.RecordOptionalDimension | src/core/scope/scope-dimensions.ts:227-238 | records a verdict, and nothing when it does not apply |
| ScopeComparison.MutableScopeComparison.CompareSourceScopeDimensions | src/core/scope/scope-dimensions.ts:140-167 | records the source-scope verdict, or for two dirty scopes the worktree verdict |
| ScopeComparison.ClaimScopesOverlap | src/core/scope/claim-scope.ts:48-59 | the sequence of mutating comparisons gives the result over the seven verdicts |
| ScopeComparison.ClaimScopesCompatibleForSupersession | src/core/scope/claim-scope.ts:61-76 | the same over eight verdicts |
| ScopeComparison.StatusIff | src/core/scope/scope-dimensions.ts:187-198 | disjoint iff some verdict is a mismatch, overlap iff all match or do not apply |
| ScopeComparison.DetailsAreTheSortedNames | src/core/scope/scope-dimensions.ts:200-213 | dimension lists are sorted and name each recorded dimension once |
| ScopeComparison.ComparisonIsSymmetric | src/core/scope/claim-scope.ts:48-76 | swapping the scopes changes neither status nor lists |
| ScopeComparison.CompatibleIffOverlapOnSameSource | src/core/scope/claim-scope.ts:61-76 | compatible for supersession iff overlapping and naming the same source |
| ScopeComparison.NeverDisjointFromItself | src/core/scope/scope-dimensions.ts:89-198 | no scope is disjoint from itself |
| ScopeComparison.LearningNeverReconcilesIff | src/core/scope/scope-dimensions.ts:240-256 | a scope that says more stays disjoint from all it was disjoint from iff the package root in force is unchanged, or there was none, and known flags stay known with their values |
| ScopeComparison.PackageRootReconciles | src/core/scope/scope-dimensions.ts:254-256 | a package root added to a service root undoes a mismatch |
| ScopeComparison.OneFlagReconciles | src/core/scope/feature-scope.ts:25-47 | so does a single flag added to a list of flags, which it replaces |
| ScopeValues.DimensionsByValues | src/core/scope/scope-dimensions.ts:89-256 | by the values of two records: a dimension is reported mismatched iff they clash in it, matched iff they agree |
| ScopeValues.DisjointByValues | src/core/scope/scope-dimensions.ts:187-198 | disjoint iff they name two branches, commits, sessions, environments that are not wild, roots, worktrees, or values of a flag, or one is committed and the other not |
| ScopeValues.OverlapByValues | src/core/scope/scope-dimensions.ts:187-198 | overlapping iff every dimension agrees, or may be left out and is |
| ScopeValues.CompatibleByValues | src/core/scope/claim-scope.ts:61-76 | compatible for supersession iff besides both name one source |
| ScopeValues.ReasonNamesWhy | src/core/scope/scope-dimensions.ts:258-275 | the reason names the status and the dimensions that decided it |
| ClaimEdges.KeyIsThePairIff | src/core/claims/claim-edge-policy.ts:174-176 | keys are equal iff the unordered pairs are, for ids without NUL |
| ClaimEdges.NulMergesPairs | src/core/claims/claim-edge-policy.ts:174-176 | with NUL in an id, different pairs can share a key |
| ClaimEdges.HasLaterResolution | src/core/claims/claim-edge-policy.ts:152-172 | true iff some strictly later, user-confirmed resolution has the same key |
| ClaimEdges.ClaimIdsBlockedByActiveClaimEdges | src/core/claims/claim-edge-policy.ts:36-96 | the loop's set is what the unresolved, authorised edges block; the ignored edges are the ineffective supersessions in order |
| ClaimEdges.OrderDoesNotMatter | src/core/claims/claim-edge-policy.ts:45-93 | the blocked set depends only on which edges there are |
| ClaimEdges.AddingAnEdge | src/core/claims/claim-edge-policy.ts:45-93 | an edge that is no resolution adds exactly what it blocks, nothing if already resolved |
| ClaimEdges.ResolvingIsDeleting | src/core/claims/claim-edge-policy.ts:152-172 | a newest user-confirmed resolution blocks exactly what deleting the pair's edges leaves |
| ClaimEdges.ResolvingOnlyUnblocks | src/core/claims/claim-edge-authority.ts:76-91 | a resolution never blocks anything more |
| ClaimEdges.DirectionDoesNotMatter | src/core/claims/claim-edge-policy.ts:106-150 | reversing any contradicts, coexists_with or variant_of edges changes nothing |
| ClaimBlocking.BlockedByFields | src/core/claims/claim-edge-policy.ts:36-150 | by edge fields and scope values: a claim is blocked iff some open edge of a trusted author hits it: either end of a contradiction, the source of a violation, unless both claims are known and clash, or the target of a supersession that may replace it; legacy authors count for the first two |
| ClaimBlocking.IgnoredByFields | src/core/claims/claim-edge-policy.ts:69-92 | a supersession is ignored iff it is open and its author or its claims do not let it replace |
| ClaimBlocking.OneEdgeBlocks | src/core/claims/claim-edge-policy.ts:106-150 | one open edge by a user blocks both ends of a contradiction, and the source only of a violation |
| RegexSubset.StarDotIff | src/core/security/ignore-policy.ts:86-90 | what `.*` matches: text without line terminators |
| RegexSubset.StarNotSlashIff | src/core/security/ignore-policy.ts:91-94 | what `[^/]*` matches: text without a slash |
| IgnoreGlob.IgnorePatternSource | src/core/security/ignore-policy.ts:81-99 | the index-skipping loop emits the expression term by term |
| IgnoreGlob.IgnorePatternRegex | src/core/security/ignore-policy.ts:70-79 | anchors it, with the tail for a directory pattern |
| IgnoreGlob.ParsesAsCompiled | src/core/security/ignore-policy.ts:81-107 | parsing the emitted text gives one term per pattern element: escaping keeps every character literal |
| IgnoreGlob.CompilingPreservesMeaning | src/core/security/ignore-policy.ts:70-107 | for every pattern and path the expression accepts exactly the glob's language |
| IgnorePolicy.LoadPatterns | src/core/security/ignore-policy.ts:27-37 | one compiled pattern per rule line, comments, blanks and negations skipped |
| IgnorePolicy.LineIsRule | src/core/security/ignore-policy.ts:59-68 | a line is a rule iff it is not empty and starts with neither # nor !; its pattern is the line without leading slashes, backslashes turned, so the line itself where there are none |
| IgnorePolicy.LoadedInOrder | src/core/security/ignore-policy.ts:27-39 | one pattern per rule line, in order, with the expression for it, matched by segment iff it has no slash |
| IgnorePolicy.SplitIsSegments | src/core/security/ignore-policy.ts:49 | the segments of a path are slash-free and join to the path |
| IgnorePolicy.IgnoredByLines | src/core/security/ignore-policy.ts:44-57 | end to end: a path is ignored iff the pattern of some rule line, read as a glob, excludes it |
| IgnorePolicy.IgnoringIsClosedBelow | src/core/security/ignore-policy.ts:44-57 | ignoring by bare-name and trailing-slash rules is closed under descending |
| IgnorePolicy.TheEmptyPathIsNotClosed | src/core/security/ignore-policy.ts:101-103 | except from a path that names nothing |
| IgnorePolicy.DoubleStarIsAnyText | src/core/security/ignore-policy.ts:86-90 | on paths without line terminators `**` is any text |
| IgnorePolicy.StarStaysInSegment | src/core/security/ignore-policy.ts:91-94 | `*` alone accepts exactly the texts without a slash, and as a rule excludes every path |
| IgnorePolicy.DoubleStarStaysOnOneLine | src/core/security/ignore-policy.ts:86-90 | otherwise `**` alone accepts exactly the paths on one line |
| IgnorePolicy.LiteralDirectoryCoversIff | src/core/security/ignore-policy.ts:70-79 | a literal rule with a trailing slash covers a path below the directory iff what lies below holds no line terminator |
| IgnorePolicy.InnerSlashCoversOnlyItself | src/core/security/ignore-policy.ts:70-79 | a literal pattern with an inner slash and no trailing one covers only its own path |
| TokenAccounting.CalculateOmittedUnchangedTokens | src/core/diff/in-memory-token-accounting.ts:66-83 | the loop over the set of omitted ids adds up the sections found by id |
| TokenAccounting.CalculateInMemoryTokenSavings | src/core/diff/in-memory-token-accounting.ts:31-64 | all totals of the metric |
| TokenAccounting.EstimateIsLeast | src/core/diff/in-memory-token-accounting.ts:108-115 | the estimate is the least number of fours that covers the trimmed text |
| TokenAccounting.BlankIff | src/core/diff/in-memory-token-accounting.ts:108-109 | what trimming removes: the white space and line terminators of ECMAScript |
| TokenAccounting.CostCoversContent | src/core/diff/in-memory-token-accounting.ts:85-98 | an item costs at least its title, its body and its restore token, a section its title and body |
| TokenAccounting.NaiveIsOmittedPlusSent | src/core/diff/in-memory-token-accounting.ts:66-83 | omitted tokens are those of the sections the context pack omits, and the naive cost is that plus the sections sent |
| TokenAccounting.OverheadIsPartOfTheCost | src/core/diff/in-memory-token-accounting.ts:44-49 | what the context pack costs is the pinned overhead, the invalidation overhead and the remaining items |
| TokenAccounting.ReductionIsAPercentage | src/core/diff/in-memory-token-accounting.ts:100-106 | the reduction is between 0 and 100 percent and the true one rounded to hundredths |
| TokenAccounting.FewerTokensMoreReduction | src/core/diff/in-memory-token-accounting.ts:100-106 | sending less never lowers it |
| TokenAccounting.BuildConservesTokens | src/app/durable-context-build.ts:138-197 | on a build's pack: its length, where the naive cost went, and that the invalidation overhead is that of the stale rows |

## Left out

- DurableBuild.LedgerStore.BuildDurableContext: the token budget step is the identity, as without a budget; session creation checks, session events, the output hook and the rows' item kinds, refs and token counts are not modelled.
- LedgerAgentRuns.RunReconstructs: asks for a clock that advances past the session's surviving rows and for resets that left nothing standing, because the promise is false otherwise; the exact conditions are RunReconstructsIff and RunReconstructsOnAdvancingClockIff.
- LedgerAgentRuns.AgentAfter: a reset counts when its build commits; a session that does not exist yet has nothing to reset, so its first request carries none.
- LedgerFreshness.NewRowsListedIff: section ids are unique within an artifact, as the context compiler produces them.
- DurableBuild.LedgerStore.PersistArtifact: the other columns of an artifact, and the kind and scope of a dependency, are not stored.
- Hashes are kept as what was hashed, so equal hashes mean equal inputs; times are natural numbers; the session lock is held throughout a build.
- Item ids stay the colon-joined strings of the source; a repeated primary key rolls the build back.
- LedgerCommits.BuildCommitsIff: artifact ids have one length, section ids no colon and session ids no `:invalidate:`, as the compiler makes them; InvalidationAsSectionRollsBack shows what happens otherwise.
- LedgerOmissions.RunOmitsIff: hashes are over what they name and sections cite only listed dependencies, as the compiler checks; RunStaleIff needs neither.
- The order of the pack-payload and dependency queries, which unique keys make immaterial. Refs, ids and file paths are compared by code unit; migration ids alone have both of their orders. Sent ids are ordered by code unit where SQLite compares UTF-8 bytes; the two differ for characters beyond the basic multilingual plane.
- McpFraming.RoundTrip: JSON and UTF-8 are an abstract codec whose printed form is one line that is not blank, does not look like a header, fits and parses back.
- WorktreeFingerprint.FingerprintIff: content hashes are assumed to hold no colon, as hexadecimal digests do.
- SnapshotFingerprint.SnapshotFingerprintIff: the lists are taken as already normalised and sorted; digests have 64 digits and sizes are safe integers.
- SelectionGuarantees.NearlyWorkConserving: refs are non-empty, since the spread drops an empty one (RoundRobin.InterleaveKeepsAllIff).
- MigrationRuns.MigrationDatabase.ApplyStorageMigrations: a script either fails or creates a set of tables.
- RankedSpread.SpreadRankedContextRefs: the package root read off a path is given as a table.
- TierSelection.SelectTieredSourceRefs: the omission warnings, and the inference of the kind of request from its text, are left out; scores and caps are integers.
- ScopeComparison.ClaimScopesOverlap: comparison with the current scope is left out.
- ClaimEdges.ClaimIdsBlockedByActiveClaimEdges: warning texts, confidence and reasons are left out; none of them decides what is blocked.
- IgnorePolicy.LoadPatterns: reading files and trimming lines; a line arrives trimmed.
- StableParts.HashStableParts: the text is kept as code units; its UTF-8 bytes are in HashedBytes.
- Outside HashedBytes, characters stand for UTF-16 code units; HashedBytes.Text gives every code unit a character.
- TokenAccounting.ReductionIsAPercentage: fractions are exact where the source uses doubles.
- TokenAccounting.FewerTokensMoreReduction: likewise exact.
- TokenAccounting.CalculateInMemoryTokenSavings: likewise, and the fields passed through unchanged are left out.
- SQLite itself, SHA-256, git calls, regular-expression heuristics, TypeScript indexing, rendering and the command line.
- The single-pass claim gates and current-valid filters: they follow from reading one chain of branches.
