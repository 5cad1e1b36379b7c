# A verified model of the logic of T-Hermes

T-Hermes is a web and desktop client with a server for coding agents. Most of it
is input, output and user interface. This project models the parts whose
correctness is a matter of logic, in Dafny 4.11, and proves what they promise
over all inputs and all runs. `dafny verify dfyconfig.toml` checks everything.

| files | modelled part |
|---|---|
| `ComposerMentions`, `ComposerLogic` | splitting a prompt into segments, and the two cursor coordinates of the composer |
| `UpdateManifest`, `UpdateManifestRoundTrip`, `UpdateManifestLines`, `UpdateManifestNumbers`, `UpdateManifestMerge` | parser, printer and merge of update manifests |
| `OrchestrationRecovery`, `ReplayRetry` | the client side of the event stream: gaps, snapshots, replays, retries |
| `TerminalLayout`, `TerminalNormal`, `TerminalTransitions`, `TerminalLaws`, `TerminalEffects`, `TerminalStore`, `TerminalEvents` | terminals in groups, their transitions, and the store of layouts and event buffers |
| `Deduplication`, `ComposerDraftItems`, `ComposerDraftStore`, `ComposerDraftLaws`, `ComposerDraftEdits`, `ComposerDraftSessions`, `ComposerDraftUndo`, `ComposerDraftPromotion`, `ComposerDraftActions` | the composer draft store |
| `CommandGate` | the startup command gate under every interleaving |
| `SecretNames`, `ServerSettings`, `ServerSettingsLaws`, `ServerSettingsService`, `SettingsDefaults` | secrets of provider instances, and the sparse settings file |
| `SessionLogic`, `PendingRequests`, `PendingLaws`, `WorkLog` | pending requests and the collapsed work log of a thread |
| `Keybindings`, `KeybindingParser` | which command a keystroke fires, which shortcut is shown, and shortcuts as texts |
| `ReleaseVersions`, `ReleaseTags`, `ReleaseTagPatterns` | release versions, their order, and the previous release tag |
| `TerminalLinks`, `TerminalLinkMatches`, `HistoryBootstrap`, `ThreadDerivation` | wrapped terminal lines and links, transcript packing, cached thread derivation |
| `Text`, `Sequences`, `Sorting`, `Scoped` | strings, sequences, the stable sort and the scoped references the above rest on |

How to read it: what the program computes by changing variables or fields is a
method with loops or a class; its contract ties the result or the new state to a
function, and the lemmas state what the program promises about that function.
What other code supplies is a parameter: `collate` is `localeCompare`, `lower`
is `toLowerCase`, `compact` is the label normaliser of the work log.

Where a promise fails for some inputs, the model follows the code, and the
lemma says exactly when it holds:

- A manifest does not survive printing and parsing when a url or hash is wrapped in quotes, or when a number prints with an exponent: that comes back as a text (`RoundTrip`; `QuotedUrlIsLost`, `TinyNumberIsLost`).
- Normalising a terminal layout twice differs from once when two running ids trim to one listed terminal (`NormalizeIsIdempotent`; `TwiceRunning`).
- Splitting can push a group past its cap by moving in a terminal that exists already (`SplitKeepsCap`; `FullGroupOverflows`, `FifthIsMovedIn`).
- An event repeated within one batch is handed over twice (`DeliveredExactlyOnce`; `RepeatedEventIsNotGapless`).
- An instance that names one variable twice, once redacted and once not, loses the secret when its own settings are sent back (`ResubmissionIsNoOp`; `TwinLosesSecret`).
- A settings key missing from the current settings but present in the defaults comes back on the next load; settings that the schema has decoded never miss one (`StripReadsBack`; `MissingKeyComesBack`).
- Telling a draft session its branch or how it runs, and neither project, worktree nor mode, moves a local session with a worktree into worktree mode (`OtherOptionsLeaveTheMode`; `ModeIsMoved`).

The release comparator orders texts by `localeCompare`, while clause 11.4.2 of
Semantic Versioning 2.0.0 asks for ASCII order; the lemmas hold for any total
preorder of texts, so they cover the code, and the standard as one instance.

## Model

| member | source | states |
|---|---|---|
| ComposerMentions.ScanIsPattern | apps/web/src/composer-editor-mentions.ts:24-25 | the greedy scan finds a token at a position exactly when the pattern, read as a relation, matches there, and then the same one |
| ComposerMentions.MatchAll | apps/web/src/composer-editor-mentions.ts:55-83 | the engine's scan from every index, resuming after each match, reports exactly the tokens of one kind, in order |
| ComposerMentions.SortedScansAreTokens | apps/web/src/composer-editor-mentions.ts:55-83 | the two scans joined and sorted by start are all tokens of the text in order; no token of one kind starts inside one of the other |
| ComposerMentions.CollectInlineTokenMatches | apps/web/src/composer-editor-mentions.ts:55-83 | the collected matches are exactly the tokens of the text, in order |
| ComposerMentions.PushTextSegment | apps/web/src/composer-editor-mentions.ts:31-53 | pushing text never loses a character and extends a trailing text segment instead of adding one |
| ComposerMentions.SegmentsByTokens | apps/web/src/composer-editor-mentions.ts:163-194 | the walk over the text equals cutting it at its tokens |
| ComposerMentions.SplitText | apps/web/src/composer-editor-mentions.ts:163-194 | the loop over the matches yields the segments of one walk over the text |
| ComposerMentions.SplitPrompt | apps/web/src/composer-editor-mentions.ts:85-135 | the loop over the characters yields the segments split at the placeholders, each with its context |
| ComposerMentions.SplitIsLossless | apps/web/src/composer-editor-mentions.ts:233-258 | printing the segments in order gives back the prompt, for every prompt and any contexts |
| ComposerMentions.SplitIsCanonical | apps/web/src/composer-editor-mentions.ts:233-258 | no empty text segment, no two side by side, and the k-th placeholder carries the k-th context or none |
| ComposerLogic.ExpandCollapsedComposerCursor | apps/web/src/composer-logic.ts:45-92 | the loop with its running remainder computes the expanded position, for every prompt and cursor, finite or not |
| ComposerLogic.CollapseExpandedComposerCursor | apps/web/src/composer-logic.ts:133-186 | the differently shaped loop computes the collapsed position, for every prompt and cursor |
| ComposerLogic.CursorMapsAreAdjoint | apps/web/src/composer-logic.ts:45-92 | collapse(e) <= c exactly when e <= expand(c), and collapse(expand(c)) = c for every c in range |
| ComposerLogic.CursorMapsAreMonotone | apps/web/src/composer-logic.ts:133-186 | both maps are monotone |
| ComposerLogic.CursorRoundsUp | apps/web/src/composer-logic.ts:133-186 | expand(collapse(e)) is the first position at or after e that is not inside a token |
| ComposerLogic.IsCollapsedCursorAdjacentToInlineToken | apps/web/src/composer-logic.ts:188-214 | the loop answers whether a token touches the collapsed cursor on the side asked for |
| ComposerLogic.TouchCrossesToken | apps/web/src/composer-logic.ts:188-214 | a token longer than one character touches the cursor, on the left or from the other side on the right, exactly when one step crosses more than one character in expanded coordinates; the step crosses just that token |
| UpdateManifest.ParseUpdateManifest | scripts/lib/update-manifest.ts:67-186 | the line loop with its current file computes the parse, every error with its line included |
| UpdateManifestLines.ParsedByGrammar | scripts/lib/update-manifest.ts:67-186 | a text is accepted if and only if its lines follow a grammar that needs no state: a file for each url with the fields that follow it, texts for version and date; and what is parsed are the last version and date, the files in order, and the last value of every other key |
| UpdateManifestLines.ErrorSaysWhere | scripts/lib/update-manifest.ts:67-186 | a refused text names the first line that is wrong and what is wrong with it, or the first of version, date and files that is missing |
| UpdateManifestLines.IdleEntryIsIgnored | scripts/lib/update-manifest.ts:157-159 | an entry path or sha512 changes nothing, with any value and between any lines, unless it cuts a file off from its fields |
| UpdateManifestLines.PathIsIgnored | scripts/lib/update-manifest.ts:157-159 | put into any printed manifest, anywhere but inside a file, it leaves what is parsed as it was |
| UpdateManifestLines.EmptyLineIsIgnored | scripts/lib/update-manifest.ts:81-134 | blank lines and the header of the file list change nothing anywhere |
| UpdateManifestNumbers.NumberIsRead | scripts/lib/update-manifest.ts:54-65 | for every text and number: the text is read as the number if and only if it is written as one, a minus, digits and digits behind a point, and denotes it |
| UpdateManifestNumbers.ScalarIs | scripts/lib/update-manifest.ts:54-65 | a value is read as what its quotes say, else as one of the two flags, else as a number if it is written as one, else as the text it is |
| UpdateManifestNumbers.PairsBecomeOne | scripts/lib/update-manifest.ts:22-27 | undoing doubled quotes from the left turns each pair into one quote and keeps single ones |
| UpdateManifestNumbers.PlainExactlyWhen | scripts/lib/update-manifest.ts:243-248 | a number is printed without an exponent if and only if it is zero or from a millionth on and below ten to the 21st |
| UpdateManifestNumbers.ExponentMeans | scripts/lib/update-manifest.ts:243-248 | printed with an exponent, its digits and power of ten make up the number, with one digit other than zero in front and no zero at the end |
| UpdateManifest.SerializeUpdateManifest | scripts/lib/update-manifest.ts:250-277 | the loops print header, files, and extras in sorted key order, numbers with an exponent where the program prints one |
| UpdateManifestRoundTrip.UnescapeEscape | scripts/lib/update-manifest.ts:239-241 | undoing the doubling of quotes gives the text back |
| UpdateManifestRoundTrip.ScalarShape | scripts/lib/update-manifest.ts:54-65 | every printed scalar is read back as the scalar it was, except that a number printed with an exponent is read as a text |
| UpdateManifestRoundTrip.LinesAreCut | scripts/lib/update-manifest.ts:72 | a text is cut at its first line feed, together with a carriage return right before it |
| UpdateManifestLines.PrintedLineByLine | scripts/lib/update-manifest.ts:250-277 | line by line what is printed: version, header, three lines for each file in order, one for each extra, release date, and an empty last line |
| UpdateManifestRoundTrip.KeysAscend | scripts/lib/update-manifest.ts:264-272 | extras are printed in ascending order of their keys |
| UpdateManifestRoundTrip.ParsePrinted | scripts/lib/update-manifest.ts:67-186 | every readable manifest is parsed from its own print, up to requoting of its files and numbers with an exponent read as texts |
| UpdateManifestRoundTrip.ParsedIsSane | scripts/lib/update-manifest.ts:67-186 | whatever is parsed has a version, a date, files, one-line texts, no negative size and no reserved extra key |
| UpdateManifestRoundTrip.RoundTrip | scripts/lib/update-manifest.ts:250-277 | for every manifest, parsing its print gives it back if and only if it is printable, a condition on its fields |
| UpdateManifestRoundTrip.QuotedUrlIsLost | scripts/lib/update-manifest.ts:22-27 | a concrete manifest with a quoted url that comes back different |
| UpdateManifestRoundTrip.TinyNumberIsLost | scripts/lib/update-manifest.ts:54-65 | a concrete manifest with the extra 1e-7, which is printed with an exponent and comes back as a text |
| UpdateManifestMerge.MergeFiles | scripts/lib/update-manifest.ts:208-237 | the map-filling loop succeeds exactly when no url has two different entries, and lists each file once in order of first appearance |
| UpdateManifestMerge.MergeExtras | scripts/lib/update-manifest.ts:188-206 | the loop succeeds exactly when the extras agree, and yields their union |
| UpdateManifestMerge.MergeUpdateManifests | scripts/lib/update-manifest.ts:208-237 | merging succeeds exactly when versions, files and extras agree; different versions are the first error |
| UpdateManifestMerge.MergeAssociative | scripts/lib/update-manifest.ts:208-237 | merging is associative, failure included |
| UpdateManifestMerge.MergeCommutative | scripts/lib/update-manifest.ts:208-237 | merging is commutative up to the order of files |
| UpdateManifestMerge.MergedContents | scripts/lib/update-manifest.ts:208-237 | the result has every file of both, each url once in order of first appearance, every extra, and the later date |
| OrchestrationRecovery.Coordinator.ClassifyDomainEvent | apps/web/src/orchestrationRecovery.ts:124-138 | the method takes the transition the laws are proved about, verdict included |
| OrchestrationRecovery.Coordinator.MarkEventBatchApplied | apps/web/src/orchestrationRecovery.ts:140-151 | the method hands over the events above the frontier in order and moves the frontier |
| OrchestrationRecovery.Coordinator.BeginSnapshotRecovery | apps/web/src/orchestrationRecovery.ts:153-164 | begins unless a recovery is in flight; a refusal is remembered |
| OrchestrationRecovery.Coordinator.CompleteSnapshotRecovery | apps/web/src/orchestrationRecovery.ts:166-172 | the method takes the transition of the specification and returns its verdict |
| OrchestrationRecovery.Coordinator.BeginReplayRecovery | apps/web/src/orchestrationRecovery.ts:178-191 | begins only when bootstrapped and idle; a refusal is remembered |
| OrchestrationRecovery.Coordinator.CompleteReplayRecovery | apps/web/src/orchestrationRecovery.ts:193-203 | reports progress against the replay's start and whether to replay again |
| OrchestrationRecovery.Coordinator.FailReplayRecovery | apps/web/src/orchestrationRecovery.ts:205-209 | a failed replay forgets its start and the bootstrap |
| OrchestrationRecovery.NothingObservedIsForgotten | apps/web/src/orchestrationRecovery.ts:103-105 | in every run latest <= highest observed, both only grow, and every classified sequence stays below the highest |
| OrchestrationRecovery.CaughtUpOnCompletion | apps/web/src/orchestrationRecovery.ts:107-117 | a recovery that ends without asking for a replay has caught up with every sequence ever classified |
| OrchestrationRecovery.PutOffForcesReplay | apps/web/src/orchestrationRecovery.ts:107-117 | any event deferred or recovery refused while one is in flight makes its completion ask for a replay |
| OrchestrationRecovery.MarkReaches | apps/web/src/orchestrationRecovery.ts:140-151 | marking a batch moves the frontier to the highest sequence in it and hands over the events above the old one |
| OrchestrationRecovery.MarkDeliversNext | apps/web/src/orchestrationRecovery.ts:140-151 | a batch hands over exactly the next integers in order if and only if it is gapless |
| OrchestrationRecovery.DeliveredExactlyOnce | apps/web/src/orchestrationRecovery.ts:124-172 | over any run, what is applied or covered is each integer from the first frontier to the last, once and in order, if and only if every marked batch is gapless |
| OrchestrationRecovery.DeliveredFromTheStart | apps/web/src/orchestrationRecovery.ts:88-96 | from the initial state: exactly 1 to latestSequence |
| OrchestrationRecovery.AppliedEventIsGapless | apps/web/src/orchestrationRecovery.ts:124-138 | an event classified as applicable and marked at once is a gapless batch |
| OrchestrationRecovery.VerdictMeans | apps/web/src/orchestrationRecovery.ts:124-138 | for every state and event: ignored if and only if the frontier has passed it; else deferred if and only if no replay could begin, applied if and only if one could and the event alone is gapless, sent to recovery if and only if one could and it is not |
| OrchestrationRecovery.IgnoredExactlyWhenDelivered | apps/web/src/orchestrationRecovery.ts:124-151 | over gapless runs from the start, an event is ignored if and only if it was delivered before |
| OrchestrationRecovery.PendingExactlyWhenPutOff | apps/web/src/orchestrationRecovery.ts:107-117 | over every run, a replay is pending if and only if something was put off since that was last cleared |
| OrchestrationRecovery.ReplayAskedExactlyWhen | apps/web/src/orchestrationRecovery.ts:107-117 | a completed recovery asks for a replay if and only if that is so, or an event was seen above the frontier it reached |
| OrchestrationRecovery.ProgressExactlyWhen | apps/web/src/orchestrationRecovery.ts:193-203 | a completed replay reports progress if and only if one has begun that nothing ended since, and the frontier is beyond where it was then |
| OrchestrationRecovery.BootstrappedExactlyWhen | apps/web/src/orchestrationRecovery.ts:166-209 | the coordinator is ready for events if and only if a snapshot was completed and no replay has failed since |
| OrchestrationRecovery.InFlightExactlyWhen | apps/web/src/orchestrationRecovery.ts:153-209 | a recovery is in flight if and only if one has begun and none has ended since; a snapshot begins if and only if none is, a replay if and only if none is and the coordinator is ready |
| OrchestrationRecovery.RepeatedEventIsNotGapless | apps/web/src/orchestrationRecovery.ts:140-151 | a concrete batch that hands one event over twice |
| ReplayRetry.RetryMakesProgress | apps/web/src/orchestrationRecovery.ts:39-86 | every decision to retry lowers (bound - latest, bound - highest, retries left) lexicographically |
| ReplayRetry.RetriesAreBounded | apps/web/src/orchestrationRecovery.ts:39-86 | with bounded observations the number of retries in a row is bounded, over any actions in between |
| ReplayRetry.DecisionFollowsStreak | apps/web/src/orchestrationRecovery.ts:39-86 | after any history of retried completions: a replay is retried if and only if one is asked for and it made progress or at most maxRetries in a row were fruitless at this frontier; the delay is none after progress and doubles along such a row |
| ReplayRetry.FrozenBackoff | apps/web/src/orchestrationRecovery.ts:39-86 | at a frozen frontier exactly maxRetries attempts are retried, with a total delay of baseDelay * (2^k - 1) |
| TerminalLayout.AssignUniqueGroupId | apps/web/src/terminalStateStore.ts:89-98 | the loop ends for every finite set of used ids, with the first unused candidate |
| TerminalLayout.NormalizeTerminalGroups | apps/web/src/terminalStateStore.ts:111-158 | the loops with their sets compute the normal form of the groups |
| TerminalLayout.NormalizeFixes | apps/web/src/terminalStateStore.ts:220-253 | the normaliser leaves every well-formed layout alone |
| TerminalLayout.NormalizeMakesWellFormed | apps/web/src/terminalStateStore.ts:220-253 | its result is well-formed if and only if no two different running ids trim to one listed terminal |
| TerminalLayout.NormalizeIsIdempotent | apps/web/src/terminalStateStore.ts:220-253 | it is idempotent on an input if and only if the same condition holds |
| TerminalNormal.SharedExactlyWhen | apps/web/src/terminalStateStore.ts:111-158 | of any layout: two terminals end up in one group if and only if they are the same or one group of the input is the first to name either |
| TerminalNormal.NormalizedParts | apps/web/src/terminalStateStore.ts:220-253 | of any layout: terminals and running terminals are those named but for white space, the active terminal and group stay where they exist, and else are the first terminal and a group of the active one |
| TerminalLayout.TwiceRunning | apps/web/src/terminalStateStore.ts:74-83 | a concrete layout that takes two normalisations |
| TerminalTransitions.UpsertTerminalIntoGroups | apps/web/src/terminalStateStore.ts:314-400 | the in-place splicing of copied groups computes the specified transition, in both modes |
| TerminalTransitions.StepKeepsWellFormed | apps/web/src/terminalStateStore.ts:314-510 | every transition, whatever ids it is given, keeps ids distinct, trimmed and non-empty, groups an exact partition with distinct ids, running ids a distinct subset, and the active ids existing |
| TerminalTransitions.ReachableIsWellFormed | apps/web/src/terminalStateStore.ts:207-253 | every layout reachable from the default one by any actions is so |
| TerminalTransitions.StepKeepsCoherence | apps/web/src/terminalStateStore.ts:314-510 | every transition with usable ids keeps, besides, the active terminal in the active group |
| TerminalTransitions.ReachableIsCoherent | apps/web/src/terminalStateStore.ts:207-253 | every layout reachable from the default one by actions with usable ids is coherent: well-formed, and the active terminal in the active group |
| TerminalTransitions.SpacedIsIncoherent | apps/web/src/terminalStateStore.ts:314-400 | a concrete untrimmed id whose creation leaves the active terminal outside the active group |
| TerminalLaws.CloseUndoesNew | apps/web/src/terminalStateStore.ts:420-488 | creating a fresh terminal and closing it restores ids, groups and running set |
| TerminalLaws.CloseUndoesSplit | apps/web/src/terminalStateStore.ts:416-488 | splitting in a fresh terminal with room and closing it restores them too |
| TerminalLaws.SplitKeepsCap | apps/web/src/terminalStateStore.ts:314-400 | a split keeps the group cap if and only if it does not move an existing terminal into a full group |
| TerminalLaws.StepKeepsCap | apps/web/src/terminalStateStore.ts:314-510 | any transition keeps the cap if and only if it is not such a split |
| TerminalLaws.RunKeepsCap | apps/web/src/terminalStateStore.ts:314-510 | the cap holds after every run whose splits are not of that kind |
| TerminalLaws.FreshSplitKeepsCap | apps/web/src/terminalStateStore.ts:375-381 | splitting in a terminal that is not listed yet always keeps the cap: without room it is refused |
| TerminalEffects.NewShows | apps/web/src/terminalStateStore.ts:420-422 | a new terminal comes last, active and shown, in a fresh group behind the others; nothing else changes |
| TerminalEffects.SplitShows | apps/web/src/terminalStateStore.ts:416-418 | a split terminal lands right behind the one that was active, in its group; nothing else changes |
| TerminalEffects.CloseShows | apps/web/src/terminalStateStore.ts:448-488 | closing the active terminal activates its successor, or its predecessor at the end; otherwise the active one stays |
| TerminalEffects.SettersShow | apps/web/src/terminalStateStore.ts:402-446 | activating, marking as running, opening and resizing change just that, and only positive heights are taken |
| TerminalEffects.EnsureShows | apps/web/src/terminalStateStore.ts:634-654 | an ensured terminal is listed, and active and shown as the options say; a started one is listed, active and shown |
| TerminalEffects.FullGroupOverflows | apps/web/src/terminalStateStore.ts:314-400 | whenever a full group is active, three actions break the cap: create a terminal, activate the previous one, split the new one in |
| TerminalEffects.FifthIsMovedIn | apps/web/src/terminalStateStore.ts:314-400 | a concrete run from the default layout that breaks the cap |
| TerminalStore.UpdateRefinesTotalMap | apps/web/src/terminalStateStore.ts:512-550 | the sparse map refines a total one: an update is read back, other threads are untouched, only well-formed layouts and no default one are stored |
| TerminalStore.UnchangedUpdateIsNoOp | apps/web/src/terminalStateStore.ts:522-550 | an update that changes nothing leaves the same map, so the program may skip it |
| TerminalStore.ReachableStore | apps/web/src/terminalStateStore.ts:279-303 | over every run each event buffer is the last 200 events recorded for its key since it was cleared, with increasing ids below the next id |
| TerminalStore.RunKeepsCoherent | apps/web/src/terminalStateStore.ts:512-550 | over every run with usable ids each stored layout has its active terminal in its active group |
| TerminalStore.BuffersBelongToOneThread | apps/web/src/terminalStateStore.ts:264-270 | for thread keys without NUL a buffer is dropped with its own thread and with no other |
| TerminalEvents.EventShows | apps/web/src/terminalStateStore.ts:688-720 | starting lists, shows and activates a terminal, not running yet; an exit stops it, a report of activity is taken over, any other event leaves the layout alone, and no other terminal starts or stops running |
| TerminalEvents.EventIsApplied | apps/web/src/terminalStateStore.ts:688-736 | the store applies just that to the thread of the event, notes where a terminal was launched, and records the event last in its buffer |
| TerminalEvents.LaunchContextReadsBack | apps/web/src/terminalStateStore.ts:659-678 | launch contexts are read back until they are cleared |
| TerminalEvents.ClearedThreadIsEmpty | apps/web/src/terminalStateStore.ts:737-796 | a cleared or removed thread has the default layout, no launch context and no event; every other keeps what it has |
| TerminalEvents.OrphansGo | apps/web/src/terminalStateStore.ts:797-836 | what belongs to a thread that is not active goes, what belongs to an active one stays |
| TerminalStore.TerminalStateStore.UpdateTerminal | apps/web/src/terminalStateStore.ts:602-658 | the store method takes the specified transition and keeps the recorded logs |
| TerminalStore.TerminalStateStore.RecordTerminalEvent | apps/web/src/terminalStateStore.ts:679-687 | appends to the key's buffer and advances the next id |
| TerminalStore.TerminalStateStore.ApplyTerminalEvent | apps/web/src/terminalStateStore.ts:688-736 | layout, launch context and buffer follow the event together |
| TerminalStore.TerminalStateStore.ClearTerminalState | apps/web/src/terminalStateStore.ts:737-769 | the thread's layout, launch context and buffers go back to their defaults |
| TerminalStore.TerminalStateStore.RemoveTerminalState | apps/web/src/terminalStateStore.ts:770-796 | everything of the thread goes, nothing of another |
| TerminalStore.TerminalStateStore.RemoveOrphanedTerminalStates | apps/web/src/terminalStateStore.ts:797-836 | the loops drop exactly what belongs to threads that are not active |
| CommandGate.NothingRunsWhilePending | apps/server/src/serverRuntimeStartup.ts:81-122 | under every interleaving no effect starts and nothing settles while the gate is pending |
| CommandGate.AtMostOnce | apps/server/src/serverRuntimeStartup.ts:102-121 | every effect starts at most once, and every queued command settles at most once |
| CommandGate.FirstInFirstOut | apps/server/src/serverRuntimeStartup.ts:86-89 | queued effects start in the order of the offers, one at a time |
| CommandGate.FailureStopsEverything | apps/server/src/serverRuntimeStartup.ts:97-110 | after a failed startup no effect runs and whatever settles does so with the startup error |
| CommandGate.WaitingIsNotLost | apps/server/src/serverRuntimeStartup.ts:112-120 | a queued command that has not settled is in the queue or in the worker's hands |
| CommandGate.SettledForGood | apps/server/src/serverRuntimeStartup.ts:76-79 | a result once delivered is final |
| CommandGate.QueuedSettlesWithItsExit | apps/server/src/serverRuntimeStartup.ts:112-119 | over every run, the queued command whose effect ended with some exit settles with that very exit, and on a ready gate every settled queued command has such an end |
| CommandGate.DirectSettlesWithItsExit | apps/server/src/serverRuntimeStartup.ts:102-105 | a command that ran its own effect settles with some exit if and only if that effect ended with it |
| CommandGate.ArrivalDecides | apps/server/src/serverRuntimeStartup.ts:102-110 | what a command finds on arrival decides for good: once startup is over none is queued, it runs at once on a ready gate and fails at once on a broken one; before, it never runs directly |
| CommandGate.WorkerDrainsTheQueue | apps/server/src/serverRuntimeStartup.ts:86-89 | from every reachable state with a complete latch the worker alone settles every queued command |
| SecretNames.EncodeInjective | apps/server/src/serverSettings.ts:75-80 | base64url encoding of ids and names is injective |
| SecretNames.EncodeHasNoDash | apps/server/src/serverSettings.ts:75-80 | the encoding of an admitted id or name never contains the separator |
| SecretNames.SecretNameInjective | apps/server/src/serverSettings.ts:75-80 | no two variables share a secret name |
| SecretNames.EncodedInGroups | apps/server/src/serverSettings.ts:75-80 | a text is encoded three characters at a time in the alphabet of base64url, one or two left over without padding |
| ServerSettingsService.SettingsService.PersistVariables | apps/server/src/serverSettings.ts:378-419 | the inner loop stores each variable redacted and folds the environment into the secrets of its own instance only |
| ServerSettingsService.SettingsService.PersistInstances | apps/server/src/serverSettings.ts:366-424 | the outer loop settles every instance, in any order, and collects exactly the names of sensitive variables |
| ServerSettingsService.SettingsService.RemoveStale | apps/server/src/serverSettings.ts:426-442 | the second loop removes exactly the secrets of variables that are sensitive no longer |
| ServerSettingsService.SettingsService.Persist | apps/server/src/serverSettings.ts:366-448 | both loops together take one transition, stated name by name |
| ServerSettingsService.SettingsService.Materialize | apps/server/src/serverSettings.ts:325-364 | the loops fill in the secret of every redacted variable, or the empty text |
| ServerSettingsService.SettingsService.UpdateSettings | apps/server/src/serverSettings.ts:549-563 | every update extends the run, keeps the state sound, and returns the materialised settings |
| ServerSettingsService.SettingsService.GetSettings | apps/server/src/serverSettings.ts:545-548 | reading returns the materialised settings of a sound state |
| ServerSettingsLaws.UpdateKeepsSound | apps/server/src/serverSettings.ts:366-448 | whatever is submitted, no sensitive text reaches the settings and secrets exist for currently sensitive variables only |
| ServerSettingsLaws.RunIsSound | apps/server/src/serverSettings.ts:549-563 | the same in every state of every run |
| ServerSettingsLaws.ReadsBack | apps/server/src/serverSettings.ts:325-364 | after every run each variable reads back, a plain one as submitted last, a sensitive one as last written under its name since that became sensitive; a submitted text is read back if and only if no later variable of the same name gives another |
| ServerSettingsLaws.LastWrittenIs | apps/server/src/serverSettings.ts:393-418 | that text without recursion over the run: of the latest submission that wrote one, across any redacted resubmissions |
| ServerSettingsLaws.ToldBy | apps/server/src/serverSettings.ts:378-419 | within one environment the last variable of the name that does not repeat its text decides |
| ServerSettingsLaws.DistinctIsTold | apps/server/src/serverSettings.ts:378-419 | with distinct names every variable decides for itself |
| ServerSettingsLaws.SettingsShown | apps/server/src/serverSettings.ts:82-109 | the client is shown exactly what the file holds, and storing that changes nothing |
| ServerSettingsLaws.ClientSeesNoSecret | apps/server/src/serverSettings.ts:82-109 | no sensitive text is shown, only that there is one; everything else is shown as it is |
| ServerSettingsLaws.ResubmissionIsNoOp | apps/server/src/serverSettings.ts:82-109 | sending back what the client was shown is a no-op if and only if no secret shares its name with a variable that is not redacted |
| ServerSettingsLaws.DistinctIsUnambiguous | apps/server/src/serverSettings.ts:366-448 | distinct names are enough for that |
| ServerSettingsService.TwinLosesSecret | apps/server/src/serverSettings.ts:378-419 | a concrete run of the service in which a variable named twice loses its secret by sending back what the client was shown |
| SettingsDefaults.StripReadsBack | apps/server/src/serverSettings.ts:222-254 | leaving out the defaults and reading the file over them gives the settings back if and only if no key of a default record is missing |
| SettingsDefaults.MissingKeyComesBack | apps/server/src/serverSettings.ts:222-254 | settings without one key of the defaults are read back with it |
| SettingsDefaults.StoredExactlyWhenDifferent | apps/server/src/serverSettings.ts:222-254 | of a record exactly the keys that differ from their defaults are stored, up to missing keys below them |
| SessionLogic.ComparatorIsOrder | apps/web/src/session-logic.ts:1110-1149 | the activity comparator is a total preorder, and ties two activities exactly when they agree in sequence, time, rank and id |
| SessionLogic.OpenIsOpenedLast | apps/web/src/session-logic.ts:208-262 | the fold leaves exactly the requests whose last opening or closing activity is an opening, with its data, each once |
| SessionLogic.SetKeepsItsPlace | apps/web/src/session-logic.ts:234-242 | a request that is opened again keeps its place in the map, a new one comes last |
| SessionLogic.DeleteClosesUp | apps/web/src/session-logic.ts:244-257 | a request that is closed leaves the others in their order |
| SessionLogic.PendingIgnoresOrder | apps/web/src/session-logic.ts:208-262 | with distinct ids the result does not depend on the order of the input |
| PendingRequests.DerivePendingApprovals | apps/web/src/session-logic.ts:208-262 | the loop over the insertion-ordered map computes the pending approvals |
| PendingRequests.DerivePendingUserInputs | apps/web/src/session-logic.ts:314-361 | the loop computes the pending user inputs; a request without a readable question opens nothing |
| PendingRequests.ApprovalIsPending | apps/web/src/session-logic.ts:208-262 | an approval is pending if and only if, in the order of the comparator, the last activity to open or close its request opens it, with that activity's data |
| PendingRequests.UserInputIsPending | apps/web/src/session-logic.ts:314-361 | the same for user inputs, in the order of the comparator |
| PendingRequests.PendingIsDetermined | apps/web/src/session-logic.ts:259-262 | pending requests come oldest first, whatever order the activities came in |
| PendingLaws.ComparesByBefore | apps/web/src/session-logic.ts:1110-1149 | the comparator puts first what came before: the smaller sequence, none before some, else the earlier time, then starting before completing, then the smaller id |
| PendingLaws.ApprovalStaysOpen | apps/web/src/session-logic.ts:208-262 | an opening with a readable kind that everything else about its request came before leaves the approval pending, with its time, kind and detail |
| PendingLaws.PendingApprovalWasOpened | apps/web/src/session-logic.ts:208-262 | whatever approval is pending has such an opening, and nothing about its request came after it |
| PendingLaws.ClosedApprovalIsGone | apps/web/src/session-logic.ts:236-254 | an approval resolved, or failed as stale, after its every opening is not pending |
| PendingLaws.InputStaysOpen | apps/web/src/session-logic.ts:314-361 | the same for a user input with a readable question, with its time and questions |
| PendingLaws.PendingInputWasOpened | apps/web/src/session-logic.ts:314-361 | whatever user input is pending has such an opening, and nothing about its request came after it |
| PendingLaws.ClosedInputIsGone | apps/web/src/session-logic.ts:343-356 | a user input resolved, or failed as stale, after its every opening is not pending |
| PendingLaws.QuestionsAround | apps/web/src/session-logic.ts:264-312 | a question with all its texts and a readable choice is taken over in its place, any other is left out |
| PendingLaws.ChoicesAround | apps/web/src/session-logic.ts:284-299 | a choice with both texts is taken over in its place, any other is left out |
| WorkLog.CollapseDerivedWorkLogEntries | apps/web/src/session-logic.ts:588-601 | the loop that replaces the last entry merges each run of the log into one entry |
| WorkLog.RunsCutTheLog | apps/web/src/session-logic.ts:603-626 | the runs joined are the log, none goes on after a completed entry, and none could have been longer |
| WorkLog.RunsAreJoined | apps/web/src/session-logic.ts:603-626 | said of the raw steps: each step of a run joins the ones before it, by their last key or by call, item type and title, and the first of a run does not join the run before |
| WorkLog.FilesAreKept | apps/web/src/session-logic.ts:656-665 | every changed file is still listed, in order of first appearance |
| WorkLog.MergedShowsLatest | apps/web/src/session-logic.ts:628-654 | a collapsed entry shows its last step, completed field by field by the latest earlier step that knew more |
| WorkLog.CompletedAreKept | apps/web/src/session-logic.ts:588-626 | the number of completed entries is kept |
| Keybindings.WhenReadsItsNames | apps/web/src/keybindings.ts:119-140 | a when clause depends on the flags it names only, and an absent flag counts as false |
| Keybindings.WhenIsLogic | apps/web/src/keybindings.ts:119-132 | clauses obey the laws of logic, and the names true and false are constants |
| Keybindings.ActiveMeans | apps/web/src/keybindings.ts:111-140 | a binding without a clause is always active, one with a clause exactly when it holds of the given context |
| Keybindings.ModIsThePlatformKey | apps/web/src/keybindings.ts:82-105 | mod is the command key on a Mac and the control key elsewhere; every other modifier must be held exactly when the shortcut has it |
| Keybindings.KeysOfEvent | apps/web/src/keybindings.ts:65-80 | an event is for the key it carries in lower case, and for the digit or bracket that its code names |
| Keybindings.ConflictKeyIsKeystroke | apps/web/src/keybindings.ts:142-154 | two conflict keys are equal if and only if key and modifiers are, even for keys that contain the separator |
| Keybindings.FindEffectiveShortcutForCommand | apps/web/src/keybindings.ts:156-182 | the backward scan returns the last active binding of the command whose keystroke no later active binding takes, or none when there is none |
| Keybindings.ResolveShortcutCommand | apps/web/src/keybindings.ts:193-209 | the backward scan returns the command of the last active binding that matches, or none when there is none |
| Keybindings.ShownShortcutFires | apps/web/src/keybindings.ts:65-105 | the shortcut shown fires its own binding if and only if its key is normalised |
| Keybindings.FiredIsShown | apps/web/src/keybindings.ts:193-209 | whatever an event fires, code aliases included, is the effective binding of its keystroke |
| Keybindings.ShownExactlyWhenFired | apps/web/src/keybindings.ts:156-209 | with normalised keys a command has a shortcut to show if and only if some event fires it |
| Keybindings.EscIsNeverTyped | apps/web/src/keybindings.ts:65-80 | no event ever carries the key esc, which is why the parser writes escape |
| KeybindingParser.ParseKeybindingShortcut | packages/shared/src/keybindings.ts:52-114 | the loops over the tokens compute the shortcut: exactly one token that is no modifier, none empty but the plus key at the end |
| KeybindingParser.WordsMean | packages/shared/src/keybindings.ts:46-114 | what the words of a text mean: modifiers by either of their names, in any order and number, and one key, of which two have a short name |
| KeybindingParser.EncodingReadsBack | apps/server/src/keybindings.ts:145-156 | a shortcut is parsed back from its encoding if and only if its key is writable, and exactly then some text is parsed to it; it has no encoding if and only if its key is empty or mixes a plus with other characters |
| KeybindingParser.EncodedInOrder | apps/server/src/keybindings.ts:145-156 | the encoding lists the modifiers in one order, each with a plus behind it, and then the key |
| KeybindingParser.SameShortcut | apps/server/src/keybindings.ts:111-124 | two texts have one encoding if and only if they are parsed to the same shortcut |
| KeybindingParser.ParsedKeyIsTyped | packages/shared/src/keybindings.ts:46-50 | events bring every parsed key into the form it has |
| KeybindingParser.ParsedScansAgree | apps/web/src/keybindings.ts:156-209 | for parsed bindings the shortcut shown always fires its own binding, and a command has one if and only if some event fires it |
| ReleaseVersions.CompareStableVersions | scripts/resolve-previous-release-tag.ts:52-75 | the index walk computes the comparison of versions with prereleases |
| ReleaseVersions.VersionsAreOrdered | scripts/resolve-previous-release-tag.ts:36-104 | both version comparators are total preorders |
| ReleaseVersions.ComparatorIsPrecedence | scripts/resolve-previous-release-tag.ts:36-75 | a version compares below another if and only if clause 11 of Semantic Versioning 2.0.0 says so, with texts in the given order |
| ReleaseVersions.NightliesPrecede | scripts/resolve-previous-release-tag.ts:98-104 | a nightly comes before another if and only if its number is smaller in the first part in which they differ |
| ReleaseTags.StableReadsBack | scripts/resolve-previous-release-tag.ts:77-96 | a printed version is parsed back as it was, except that nightly prereleases are refused |
| ReleaseTags.NightlyReadsBack | scripts/resolve-previous-release-tag.ts:106-122 | both nightly formats are parsed back |
| ReleaseTags.NightlyIsNotStable | scripts/resolve-previous-release-tag.ts:84-88 | no tag parses as both |
| ReleaseTagPatterns.StableTagIs | scripts/resolve-previous-release-tag.ts:77-96 | for every text and version: the text is its stable tag if and only if it has the form the pattern describes, with these numbers and identifiers |
| ReleaseTagPatterns.NightlyTagIs | scripts/resolve-previous-release-tag.ts:106-122 | the same for nightly tags, in both formats |
| ReleaseTags.ResolvedIsPrevious | scripts/resolve-previous-release-tag.ts:124-158 | the resolved tag is the highest of those strictly below the current one, the first listed of its rank; none exactly when nothing is below |
| ReleaseTags.PreviousReleaseTag | scripts/resolve-previous-release-tag.ts:124-158 | the same for both channels, and an unreadable current tag is refused |
| Deduplication.AcceptItems | apps/web/src/composerDraftStore.ts:2604-2644 | the loop with two growing sets accepts exactly the items that share no id and no key with what is kept so far |
| Deduplication.AcceptIsDistinct | apps/web/src/composerDraftStore.ts:2604-2644 | what is accepted never breaks distinctness |
| Deduplication.SliceIsAccepted | apps/web/src/composerDraftStore.ts:2739-2742 | running the loop over old and new items and cutting off the old ones leaves exactly the newly accepted ones |
| ComposerDraftItems.NormalizeTerminalContextsForThread | apps/web/src/composerDraftStore.ts:540-563 | the loop keeps the readable contexts, each id and each stretch of lines once |
| ComposerDraftItems.NormalizeIsWellFormed | apps/web/src/composerDraftStore.ts:518-538 | a normalised context is trimmed, named, and has whole lines with 1 <= lineStart <= lineEnd |
| ComposerDraftItems.NormalizeKeeps | apps/web/src/composerDraftStore.ts:518-538 | a well-formed context keeps its id, terminal and lines under normalisation |
| ComposerDraftItems.NormalizeReads | apps/web/src/composerDraftStore.ts:518-538 | a context is readable if and only if its terminal and label are not blank; its lines are rounded down, to no less than one and than each other |
| ComposerDraftItems.BreaksBecomeUnix | apps/web/src/lib/terminalContext.ts:42-44 | every Windows break of a text becomes a Unix break |
| ComposerDraftItems.TextIsTrimmed | apps/web/src/lib/terminalContext.ts:42-44 | what is left of that is what stands between its leading and trailing breaks |
| ComposerDraftItems.ImageKeyIsFile | apps/web/src/composerDraftStore.ts:508-512 | image keys are equal if and only if type, size and name are, as long as no type contains the separator |
| ComposerDraftItems.ContextKeyIsStretch | apps/web/src/composerDraftStore.ts:514-516 | two context keys are equal if and only if terminal and lines are |
| ComposerDraftItems.SliceIsNew | apps/web/src/composerDraftStore.ts:2739-2742 | in a sound draft the slice of addTerminalContexts is exactly the newly accepted contexts |
| ComposerDraftItems.PlaceholdersSuffice | apps/web/src/lib/terminalContext.ts:289-308 | missing placeholders are put in front, none are removed, and asking twice is asking for the larger number |
| ComposerDraftLaws.ReachableIsSound | apps/web/src/composerDraftStore.ts:1942-2890 | in every state reachable from the empty store: mappings point at sessions, every session is mapped or being promoted, no empty draft is kept, images and contexts are distinct and contexts readable |
| ComposerDraftLaws.StepKeepsSound | apps/web/src/composerDraftStore.ts:2014-2890 | every action keeps these facts |
| ComposerDraftLaws.AddedContexts | apps/web/src/composerDraftStore.ts:2731-2760 | adding contexts appends exactly the newly accepted ones, or changes nothing |
| ComposerDraftLaws.RemoveKeepsSound | apps/web/src/composerDraftStore.ts:1231-1259 | removing all references to a session leaves no dangling mapping and no orphan |
| ComposerDraftLaws.SetSessionKeepsSound | apps/web/src/composerDraftStore.ts:2014-2069 | giving a project a session keeps every mapping and every session accounted for |
| ComposerDraftEdits.StoredReadsBack | apps/web/src/composerDraftStore.ts:565-576 | the store of non-empty drafts refines a total map: a stored draft is read back, and exactly unless an emptied draft still lists ids of images not persisted |
| ComposerDraftEdits.EditWrites | apps/web/src/composerDraftStore.ts:2311-2592 | setting prompt, modes or models writes these fields and nothing else, the ids of images not persisted included |
| ComposerDraftEdits.EditClears | apps/web/src/composerDraftStore.ts:2786-2890 | clearing takes away what it names, with the ids of images not persisted when the attachments go; clearing the content keeps model, provider and modes |
| ComposerDraftEdits.RemovedImage | apps/web/src/composerDraftStore.ts:2645-2679 | removing an image takes its id out of images, attachments and the ids not persisted, keeps their order, and changes nothing else |
| ComposerDraftEdits.VerifiedAttachments | apps/web/src/composerDraftStore.ts:1782-1827 | after verification just the attachments stay that were stored and whose image is still there, and exactly the images that were not stored are listed as not persisted, in their order |
| ComposerDraftEdits.ContextsAreSet | apps/web/src/composerDraftStore.ts:2331-2356 | setting the contexts replaces them by the readable ones of the list, once each, and completes the placeholders |
| ComposerDraftEdits.ContextsAreAdded | apps/web/src/composerDraftStore.ts:2731-2760 | adding contexts puts exactly the newly accepted ones behind the old and completes the placeholders |
| ComposerDraftEdits.InsertsExactlyWhen | apps/web/src/composerDraftStore.ts:2680-2719 | in a sound store a context is taken in if and only if it is readable and none of the draft has its id or its stretch of lines |
| ComposerDraftEdits.ContextIsInserted | apps/web/src/composerDraftStore.ts:2680-2719 | it then stands at the index asked for, or at the nearer end, the others in their order, with the prompt that came with it |
| ComposerDraftEdits.RemovedContext | apps/web/src/composerDraftStore.ts:2761-2785 | removing a context takes out the one with the id and keeps the others in their order |
| ComposerDraftSessions.OtherOptionsLeaveTheMode | apps/web/src/composerDraftStore.ts:2078-2156 | options that name neither project, worktree nor mode change only the fields they name if and only if the mode fits the worktree, and only the mode otherwise |
| ComposerDraftSessions.ModeIsMoved | apps/web/src/composerDraftStore.ts:2078-2156 | a concrete local session with a worktree that is told its runtime mode and becomes a worktree session |
| ComposerDraftSessions.SaidTwice | apps/web/src/composerDraftStore.ts:2078-2156 | setting the context is idempotent, for any options and project |
| ComposerDraftSessions.SaidInTurn | apps/web/src/composerDraftStore.ts:2078-2156 | setting the context twice is setting it once with the merged options if and only if the modes merge, a condition on session and options; everything but the mode always merges |
| ComposerDraftSessions.MovingForgets | apps/web/src/composerDraftStore.ts:2078-2156 | sessions that differ in branch, worktree and mode become one by a call if and only if it moves them to another project or names the differences |
| ComposerDraftSessions.MovedIsLocal | apps/web/src/composerDraftStore.ts:2078-2156 | a session moved to another project goes on like a local one there without branch or worktree, whatever else is said |
| ComposerDraftSessions.GivenTwice | apps/web/src/composerDraftStore.ts:2014-2069 | giving a project the same session with the same options again changes nothing, at whatever time |
| ComposerDraftSessions.GivingIsSetting | apps/web/src/composerDraftStore.ts:1147-1198 | giving a project the session it has is setting that session's context and forgetting its promotion, if and only if no other thread is named and no empty time that only the former takes |
| ComposerDraftSessions.GivingNewIsSetting | apps/web/src/composerDraftStore.ts:1147-1198 | giving it a new session is setting the context of a fresh local one, under the same condition |
| ComposerDraftUndo.ImagesInBatches | apps/web/src/composerDraftStore.ts:2604-2644 | adding images in two batches is adding them in one |
| ComposerDraftUndo.ImagesTwice | apps/web/src/composerDraftStore.ts:2604-2644 | adding the same images again changes nothing |
| ComposerDraftUndo.ContextsInBatches | apps/web/src/composerDraftStore.ts:2731-2760 | in a sound store adding contexts in two batches is adding them in one, prompt included |
| ComposerDraftUndo.ContextsHavePlaceholders | apps/web/src/composerDraftStore.ts:2731-2760 | after contexts have been added the prompt has a placeholder for each |
| ComposerDraftUndo.RemoveUndoesInsert | apps/web/src/composerDraftStore.ts:2680-2785 | a context inserted anywhere and removed leaves the contexts as they were, in their order |
| ComposerDraftUndo.OthersUntouched | apps/web/src/composerDraftStore.ts:2078-2890 | an edit at one key leaves every other draft, session and foreign mapping alone |
| ComposerDraftUndo.ProjectHasItsSession | apps/web/src/composerDraftStore.ts:2014-2069 | a project is found to have the session it was given; only its previous session can go, exactly when it is unmapped and not being promoted |
| ComposerDraftPromotion.RemovedIsGone | apps/web/src/composerDraftStore.ts:1231-1259 | removing the references to a key takes it out of all three maps, and this and nothing else is what the result says |
| ComposerDraftPromotion.PromotedIsNotFound | apps/web/src/composerDraftStore.ts:2187-2212 | promoting notes the thread, by default the session's own, and nothing else; no project finds the session any more |
| ComposerDraftPromotion.FinalizedExactlyWhenPromoted | apps/web/src/composerDraftStore.ts:2213-2225 | finalizing removes a session that is being promoted and leaves one that is not, in particular one that a project finds, as it is |
| ComposerDraftPromotion.PromotedThenFinalized | apps/web/src/composerDraftStore.ts:2187-2225 | promoted and then finalized, a session is gone with its draft and every mapping to it, and all else is as before |
| ComposerDraftPromotion.ClearedIsGone | apps/web/src/composerDraftStore.ts:2170-2242 | clearing by project removes a session if and only if it is one of that project; clearing a draft removes it whatever it is |
| ComposerDraftPromotion.KeyIsFound | apps/web/src/composerDraftStore.ts:1081-1106 | the key of a composer: a draft id itself, the stored draft of a thread, else a session of that thread, else the thread |
| ComposerDraftPromotion.KeyExists | apps/web/src/composerDraftStore.ts:1081-1106 | every target but a blank draft id has a key, and the only session of a thread without a stored draft is found |
| ComposerDraftPromotion.ThreadIsFound | apps/web/src/composerDraftStore.ts:1108-1126 | the thread of a composer: that of its session, or the one it was opened for, unless the id is empty |
| ComposerDraftPromotion.ContextIsSet | apps/web/src/composerDraftStore.ts:2078-2156 | setting the context of a session replaces it by the next one and touches nothing else |
| ComposerDraftActions.DraftStore.ResolveComposerDraftKey | apps/web/src/composerDraftStore.ts:1081-1106 | the loop over the sessions finds a key as specified, or none for a blank draft id |
| ComposerDraftActions.DraftStore.SetPromptOf | apps/web/src/composerDraftStore.ts:2311-2330 | the action takes its step and keeps the store sound |
| ComposerDraftActions.DraftStore.AddImagesTo | apps/web/src/composerDraftStore.ts:2604-2644 | the action takes its step and keeps the store sound |
| ComposerDraftActions.DraftStore.RemoveImageFrom | apps/web/src/composerDraftStore.ts:2645-2679 | the action takes its step and keeps the store sound |
| ComposerDraftActions.DraftStore.InsertTerminalContextInto | apps/web/src/composerDraftStore.ts:2680-2719 | the action takes its step, and answers true exactly when the context was readable and new |
| ComposerDraftActions.DraftStore.AddTerminalContextsTo | apps/web/src/composerDraftStore.ts:2731-2760 | the action takes its step and keeps the store sound |
| ComposerDraftActions.DraftStore.SetTerminalContextsOf | apps/web/src/composerDraftStore.ts:2331-2356 | the action takes its step and keeps the store sound |
| ComposerDraftActions.DraftStore.RemoveTerminalContextFrom | apps/web/src/composerDraftStore.ts:2761-2785 | the action takes its step and keeps the store sound |
| ComposerDraftActions.DraftStore.ClearComposerContentOf | apps/web/src/composerDraftStore.ts:2864-2890 | the action takes its step and keeps the store sound |
| ComposerDraftActions.DraftStore.SetLogicalProjectDraftThreadId | apps/web/src/composerDraftStore.ts:2014-2069 | the action takes its step and keeps the store sound |
| ComposerDraftActions.DraftStore.RemoveDraftThreadReferences | apps/web/src/composerDraftStore.ts:1231-1259 | the three maps lose every reference to the key |
| ComposerDraftActions.DraftStore.MarkDraftThreadPromoting | apps/web/src/composerDraftStore.ts:2187-2212 | the action takes its step and keeps the store sound |
| ComposerDraftActions.DraftStore.FinalizePromotedDraftThread | apps/web/src/composerDraftStore.ts:2213-2225 | the action takes its step and keeps the store sound |
| ComposerDraftActions.DraftStore.ClearDraftThreadOf | apps/web/src/composerDraftStore.ts:2226-2242 | the action takes its step and keeps the store sound |
| ComposerDraftActions.DraftStore.ClearProjectDraftThreadId | apps/web/src/composerDraftStore.ts:2157-2169 | the action removes a session of the project, or changes nothing when there is none |
| TerminalLinks.CollectWrappedTerminalLinkLine | apps/web/src/terminal-links.ts:175-220 | walking back and then forward collects the segments of the run that the row belongs to, or nothing when the run goes back to a missing row |
| TerminalLinks.AnyRowOfTheRun | apps/web/src/terminal-links.ts:175-220 | two rows give the same joined line if and only if they are rows of one run that has one |
| TerminalLinks.NoLineExactlyWhenCut | apps/web/src/terminal-links.ts:175-220 | a row has no joined line if and only if its run goes back to a missing row |
| TerminalLinks.SegmentsAre | apps/web/src/terminal-links.ts:194-213 | one segment for each row of the run, in full where the next row goes on and else without the blanks at its end, one behind the other |
| TerminalLinks.ResolveCharacterPosition | apps/web/src/terminal-links.ts:222-240 | the loop finds the first segment that reaches past the character, with the fallback for positions past the end |
| TerminalLinks.CharacterIsFound | apps/web/src/terminal-links.ts:222-240 | every character of a joined line is found in the row and column it came from |
| TerminalLinks.PastTheEnd | apps/web/src/terminal-links.ts:222-240 | a position past the end is that of the last character of the last row |
| TerminalLinkMatches.TrimUnbalanced | apps/web/src/terminal-links.ts:48-55 | the loop cuts closing characters from the end while they outnumber the opening ones |
| TerminalLinkMatches.BalancedOrOpen | apps/web/src/terminal-links.ts:48-55 | only closing characters are cut, and the rest is balanced or ends in something else |
| TerminalLinkMatches.TrimmedInStages | apps/web/src/terminal-links.ts:42-61 | a match is trimmed of its punctuation and then of unbalanced round, square and curly brackets, in this order, and of nothing else |
| TerminalLinkMatches.CandidateIs | apps/web/src/terminal-links.ts:77-90 | a match is a candidate if and only if something is left of it, and a path only when that is no web address in letters of any case |
| TerminalLinkMatches.OverlapIsShared | apps/web/src/terminal-links.ts:63-65 | two matches overlap if and only if some character of the line is in both |
| TerminalLinkMatches.CollectMatches | apps/web/src/terminal-links.ts:67-99 | the loop keeps, in order, exactly the candidates that collide with nothing kept before; the kept ones overlap neither each other nor the existing ones, and each stands where it says |
| TerminalLinkMatches.ExtractTerminalLinks | apps/web/src/terminal-links.ts:169-173 | the links are all that is kept of the web addresses, and of the paths beside them, in the order of the line and without overlap |
| TerminalLinkMatches.SplitPathAndPosition | apps/web/src/terminal-links.ts:140-167 | path, line and column joined give the text back; a column comes only with a line |
| TerminalLinkMatches.PositionIsRead | apps/web/src/terminal-links.ts:140-167 | a path with line and column is split into the three, and one with a line alone into the two |
| HistoryBootstrap.BuildBootstrapInput | apps/web/src/historyBootstrap.ts:60-139 | the text never exceeds the budget, every message is included or counted, the newest are included as long as each fits, the next would not, and the shrinking step is never reached |
| HistoryBootstrap.IncludingSays | apps/web/src/historyBootstrap.ts:51-58 | the input holds, in this order: preamble, count of the omitted messages if any, the blocks of the included ones, and the latest request, with which it ends |
| HistoryBootstrap.BlockSays | apps/web/src/historyBootstrap.ts:35-49 | a block names who wrote the message, repeats its whole text, and closes with its images |
| HistoryBootstrap.SummarySays | apps/web/src/historyBootstrap.ts:21-33 | one image is named, of several the first three, and the others are counted |
| ThreadDerivation.Derivation.CollectByIds | apps/web/src/threadDerivation.ts:36-61 | the cached collection equals the uncached one and is the very same array for the same objects |
| ThreadDerivation.Derivation.SelectFamily | apps/web/src/threadDerivation.ts:63-99 | each family of a thread equals its uncached derivation and stays the same array |
| ThreadDerivation.Derivation.GetThread | apps/web/src/threadDerivation.ts:101-152 | the thread shows what the state holds, and is the very same object while nothing it is derived from is replaced |
| ThreadDerivation.CollectedInOrder | apps/web/src/threadDerivation.ts:46-50 | what is collected are the values of the ids in their order; an id without a value is passed over |

## Left out

- Strings are sequences of Unicode characters, so a character outside the basic plane counts once where the program counts two code units.
- Numbers are integers, decimals or reals where the code floors; the difference between not-a-number and the infinities is kept only where a branch depends on it, and the precision limits of large numbers are not. Numbers in manifests are finite, and sizes of files whole.
- `localeCompare`, `toLowerCase` and the compact label of the work log are parameters; where a lemma says so, a total preorder is assumed of the first, and of the second that it yields lower-case characters and leaves exactly the texts made of them alone (`FoldsCase`; folding `A` to `Z` does so, `LetterFoldingFolds`).
- Records are finite maps without inherited keys. Where the program takes the first matching entry of a record, the model takes any, so its results hold for every insertion order.
- Returning the same object when nothing changed is modelled for the thread derivation only; elsewhere an unchanged state is an equal one.
- React hooks, storage wiring, hydration of files, revoking of preview urls, logging and analytics have no counterpart.
- Migrations of persisted drafts and terminals are not modelled; runs start from the empty stores.
- Model actions of the draft store (selections, options, sticky state) are one action that writes any selection: what they compute is not modelled, what they keep is.
- The draft store's mode, model, attachment and session-context actions are modelled on values, without the in-place replacement of the maps.
- Updates of the settings that fail part-way, reloading after the file is edited by hand, and the file watcher are not modelled; `applyServerSettingsPatch` is not part of this model, so every admissible settings value may be submitted.
- Encoding and decoding of the settings and of secrets are taken to be faithful; a settings value that is an array or a scalar is compared as a whole.
- Object types and key order of settings values beyond records are not modelled; a missing key is taken to read as its default.
- Each startup signals one outcome; a second call of the signalling functions is not modelled.
- Request ids and other identifiers are taken as they are; what the schema library does with an empty one is not part of this model.
- The regular expressions of the composer and of release tags are written as scanners; those of terminal links are not part of this model, their matches are given.
- TerminalTransitions.ReachableIsCoherent: asks for trimmed or blank terminal ids, as the callers pass them; the program does not check them. Without that a layout stays well-formed (`ReachableIsWellFormed`), but its active group may lack the active terminal (`SpacedIsIncoherent`).
- Keybindings.ShownExactlyWhenFired: asks for normalised keys; `ParsedScansAgree` has it for every binding that was parsed. The parser of when clauses is not part of this model, nor is the schema that trims texts.
