# Verified models of Synchrono City

Synchrono City is a map-native social stack: a web client that talks to Nostr relays, and
Concierge, a Go service that decides who may publish, join and speak. This project models the
parts of both whose correctness is not visible from any one function, and proves what they
promise. `dafny verify dfyconfig.toml` checks everything.

Code that updates state is modelled as a class or a loop and proved against a specification
function; the properties are lemmas about those functions, and about whole runs built from them.

| part | files | what is proved |
|---|---|---|
| Geohash codec | `Geohash`, `GeohashLaws` | round trip at every length, exact error bound, prefix nesting |
| Pulse relay scheduler | `PulseRollup`, `PulseRollupLaws`, `PulseRollupRuns` | concurrency limit, no lost wake-up, work conservation, backoff, bounded overtaking, silence after stop, over all runs |
| Note reconciliation | `Notes`, `NoteReconciliation`, `NoteConvergence`, `NoteContents` | exactly one copy of a post under any interleaving, and which id it ends up with; refreshes are idempotent and commute; no step lowers a count |
| Reply tags (NIP-10) | `ReplyTags`, `ReplyTagLaws`, `ReplyTagMeaning` | tags round trip, threads keep their root, replies are conserved; what every tag means |
| Record store and audit log | `AuditCursor`, `MemoryStore`, `AuditPaging`, `StoreRuns` | pagination is complete while writers append |
| Rate limiter | `RateLimiter`, `RateLimiterLaws` | in-place compaction refines the full history; the retry time is exact |
| Policy and room tokens | `Policy`, `RoomTokens`, `PolicyLaws`, `PolicyRecords`, `PolicyFrames` | decisions refine a declarative rule over the stored records, with exact reasons; the two services agree, and exactly when; what decisions do not depend on |
| Pulse feed | `PulseFeed`, `PulseFeedLaws`, `PulseFeedItems`, `PulseFeedOrder` | deduplication absorbs, posts are conserved, newest first, reordering stays within pages |
| Circuit breaker and relay shim | `CircuitBreaker`, `CircuitBreakerLaws` | counter invariants, a bound on upstream calls, what every line is answered, and exactly when the breaker can wedge |
| Shared | `Text`, `Sequences`, `Arithmetic`, `Sorting`, `Timestamps` | trimming and lower-casing, a stable sort, the timestamp order |

Time is a parameter of every operation that reads a clock, and the laws about runs assume a
nondecreasing clock. The outcomes of network calls are parameters too. `Date.parse`,
`localeCompare`, the Nostr key library and the source of default room grants are function
parameters, of which only the stated laws are used.

Where the code does not do what a reader would expect, the model follows the code:

- A limit of zero or less makes the rate limiter panic on its first call (`RateLimiterLaws.PanicsIffNoLimit`). The server itself passes 30 (`apps/concierge/internal/httpapi/server.go:75`), so only another caller can reach this.
- A revocation appended to the store is skipped by every lookup and undoes nothing (`PolicyFrames.RevokingChangesNothing`); a block is permanent (`PolicyLaws.BlockIsPermanent`).
- A token can carry a right to publish that `Evaluate` denies, from the default grant of a room (`PolicyLaws.PublishRightsAgree` says exactly when, `PolicyLaws.DefaultGrantPublishes` gives the case).
- If the server's reply to a new note arrives before its publish success, the note keeps the server's local id for ever (`NoteReconciliation.EventIdIffPublishedFirst`), and the client refuses replies and reactions to notes without an event id (`apps/web/src/app-state.tsx:1163,1262`).
- A pump that leaves a due relay waiting re-arms its timer with no delay (`PulseRollupLaws.PumpArmsTimer` says exactly when), so at the limit the scheduler polls until a query settles (`PulseRollupRuns.PollsWhileFull`).
- An audit reader can skip entries if the clock was set back (`AuditPaging.CursorResumes` says exactly when, `AuditPaging.ClockSetBackSkips` gives the case).
- A feed item can be taken for a duplicate of a different post exactly when one of its fields holds the separator of the fallback key (`PulseFeedOrder.DuplicatesIffPlain`).
- With a half-open failure threshold that is not positive, `Allow` can refuse while `State` reports half-open (`CircuitBreakerLaws.RefusesIffOpen`), and the shim can come to rest in that state for ever exactly when closing also takes more than one success and the endpoint is valid (`CircuitBreakerLaws.WedgesIff`). `New` replaces zero settings, and the shim itself passes none (`apps/concierge/internal/relayshim/shim.go:50`), so only another caller with a negative setting can reach this.

## Model

| member | source | states |
|---|---|---|
| GeohashLaws.RoundTrip | apps/web/src/components/map-preview.tsx:373-447 | Decoding succeeds exactly on texts over the alphabet (in either case), and encoding the decoded centre at the same length gives the lower-cased text back, for texts of every length. |
| GeohashLaws.ErrorBound | apps/web/src/components/map-preview.tsx:407-447 | Decoding an encoded point lands within 180/2^ceil(5p/2) of its longitude and 90/2^floor(5p/2) of its latitude, at every precision; each bound is met if and only if that coordinate is on the map. |
| GeohashLaws.EncodesIffCovers | apps/web/src/components/map-preview.tsx:373-447 | A text is the encoding of a point if and only if its cell covers the point, so equal-length texts partition the plane. |
| GeohashLaws.WalkIffCovers | apps/web/src/components/map-preview.tsx:417-436 | A point takes the left/right choices of a cell at every bisection on both axes if and only if the cell covers it. |
| GeohashLaws.CoarserIsPrefix | apps/web/src/components/map-preview.tsx:407-447 | Encoding at precision p is a prefix of encoding at every q >= p. |
| GeohashLaws.SnappingKeepsCoarserText | apps/web/src/components/map-preview.tsx:373-447 | Moving a point to the centre of its fine cell never changes its coarser texts. |
| GeohashLaws.DecodeEncode | apps/web/src/components/map-preview.tsx:373-447 | Every encoded point decodes, to the centre of the cell its choices lead to, and the text has the requested length. |
| GeohashLaws.CellWidth | apps/web/src/components/map-preview.tsx:384-401 | The size of a cell depends on the number of bits only and halves per bit, alternating between the axes. |
| Geohash.UnpackPack | apps/web/src/components/map-preview.tsx:384-388 | Five bits packed into a character value come back when the decoder reads the value mask by mask. |
| GeohashLaws.AlphabetIsBase32 | apps/web/src/components/map-preview.tsx:54 | A character is looked up exactly when it is a digit or a lower-case letter other than a, i, l and o, and at its place among these in ascending order. |
| GeohashLaws.DecodesIffBase32 | apps/web/src/components/map-preview.tsx:373-382 | A text decodes exactly when all its characters, lower-cased, are base-32 symbols. |
| Geohash.BitsOfCharsOf | apps/web/src/components/map-preview.tsx:379-384 | Spelling a bit string as characters and looking the characters up gives the bit string back. |
| Geohash.CharsOfBitsOf | apps/web/src/components/map-preview.tsx:379-384 | Looking up the characters of a text and spelling the bits gives the text back. |
| Geohash.DecodeGeohashCenter | apps/web/src/components/map-preview.tsx:373-405 | The decoder loop over two range arrays and a parity bit computes the centre of the cell its text names, or null at the first unknown character. |
| Geohash.EncodeGeohash | apps/web/src/components/map-preview.tsx:407-447 | The encoder loop, with its partly filled character, computes the text of the first 5p bisection choices; it terminates by (characters left, bits left). |
| Geohash.ReadCharacter | apps/web/src/components/map-preview.tsx:384-401 | One character narrows the two arrays and flips the parity exactly as its five bits do. |
| Geohash.Bisect | apps/web/src/components/map-preview.tsx:417-436 | One bisection keeps the half of the range the coordinate is in, the upper one on a tie. |
| PulseRollupRuns.LimitHolds | apps/web/src/pulse-relay-rollup.ts:95-155 | In every state of every run, the queries in flight are at most the configured limit. |
| PulseRollupRuns.NoDoubleStart | apps/web/src/pulse-relay-rollup.ts:95-155 | A relay is never queried twice at once: between two starts its `finally` callback runs. |
| PulseRollupRuns.NoLostWakeUp | apps/web/src/pulse-relay-rollup.ts:83-123 | In every reachable unstopped state, an idle relay means an armed timer, due no later than the relay needs it (or than the last callback or the first delay, if later). |
| PulseRollupRuns.WorkIsConserved | apps/web/src/pulse-relay-rollup.ts:95-123 | After every pump of every run, either the limit is full or no idle relay is due. |
| PulseRollupRuns.SilentAfterStop | apps/web/src/pulse-relay-rollup.ts:95-163 | After stop nothing is started, the caller is never called back, and no timer is armed. |
| PulseRollupRuns.NotifiesUntilStop | apps/web/src/pulse-relay-rollup.ts:129-150 | The caller hears of every outcome of every query until the scheduler is stopped, and of nothing else. |
| PulseRollupRuns.BackoffHolds | apps/web/src/pulse-relay-rollup.ts:39-46 | After its n-th failure in a row a relay is not started again before min(max, base * 2^(n-1)) ms have passed, the formula written out. |
| PulseRollupRuns.BackoffDoubles | apps/web/src/pulse-relay-rollup.ts:39-46 | The first backoff is the base, and every further failure doubles it up to the maximum. |
| PulseRollupRuns.CooldownHolds | apps/web/src/pulse-relay-rollup.ts:129-137 | After a success a relay is not started again before the cooldown has passed. |
| PulseRollupRuns.DueExactlyThen | apps/web/src/pulse-relay-rollup.ts:129-150 | From a success or failure until its next start, a relay is due exactly at the time of the callback plus the cooldown or the written-out backoff, no sooner and no later. |
| PulseRollupRuns.FirstTickFirst | apps/web/src/pulse-relay-rollup.ts:65-93 | A fresh scheduler has every relay idle and due and one timer after the initial delay, and nothing but that timer or a stop comes first. |
| PulseRollupRuns.BackoffBounds | apps/web/src/pulse-relay-rollup.ts:39-46 | The backoff lies between 1 ms and the maximum and never shrinks as failures add up. |
| PulseRollupRuns.FailureCountIsStreak | apps/web/src/pulse-relay-rollup.ts:134-143 | The failure counter of an unstopped scheduler is the number of failures since the last success, a throwing notes handler counting as a failure. |
| PulseRollupRuns.BoundedOvertaking | apps/web/src/pulse-relay-rollup.ts:95-155 | While a relay is idle and due, any other relay is started at most once before it: a callback that starts the other one a second time also starts the waiting one, and ahead of it. Neither is the current relay, and the success cooldown is positive (or the waiting relay comes first in the list). |
| PulseRollupRuns.UrgentStartsAhead | apps/web/src/pulse-relay-rollup.ts:106-114 | A callback that starts a relay also starts every idle, due and more urgent relay, and ahead of it. |
| PulseRollupRuns.PollsWhileFull | apps/web/src/pulse-relay-rollup.ts:95-123 | While the limit is full and a due relay waits, every timer tick starts nothing and re-arms the timer with no delay, until a query settles or the scheduler stops. |
| PulseRollupRuns.StarvationLasts | apps/web/src/pulse-relay-rollup.ts:95-155 | No callback but the end of a query or a stop relieves a due relay that waits at the limit. |
| PulseRollupLaws.ChosenAreMostUrgent | apps/web/src/pulse-relay-rollup.ts:106-114 | A pump starts distinct idle, due relays, the current relay first, then by due time, then by list order, each ahead of every due relay it leaves waiting. |
| PulseRollupLaws.ComparesAhead | apps/web/src/pulse-relay-rollup.ts:167-179 | The comparator is exactly that order, told from the relay states. |
| PulseRollupLaws.PolledRelays | apps/web/src/pulse-relay-rollup.ts:181-185 | The scheduler polls exactly the inbox relays, as often as they are listed, the current one first, and otherwise in the order of the list. |
| PulseRollupLaws.UnsetOptions | apps/web/src/pulse-relay-rollup.ts:4-9 | The defaults of all five settings. |
| PulseRollupLaws.SetOptions | apps/web/src/pulse-relay-rollup.ts:187-193 | Set options are rounded down, and raised to zero, to one, or to the base. |
| PulseRollupLaws.PumpConservesWork | apps/web/src/pulse-relay-rollup.ts:95-123 | One pump never exceeds the limit and leaves a due relay idle only at the limit. |
| PulseRollupLaws.PumpArmsTimer | apps/web/src/pulse-relay-rollup.ts:116-123 | A pump leaves the timer unarmed exactly when all relays are in flight; otherwise it is due neither before now nor after any idle relay is, and with no delay if and only if an idle relay is due by then. |
| PulseRollupLaws.FullPumpStartsNothing | apps/web/src/pulse-relay-rollup.ts:103-114 | A pump at the limit starts nothing. |
| PulseRollupLaws.NoLaterIsTotalPreorder | apps/web/src/pulse-relay-rollup.ts:167-179 | The relay comparator is a total preorder, as sorting needs. |
| PulseRollup.ChosenInRange | apps/web/src/pulse-relay-rollup.ts:106-114 | Every started relay exists, is idle and is due. |
| PulseRollup.Configure | apps/web/src/pulse-relay-rollup.ts:48-64 | Whatever the options, the limit is at least 1 and 1 <= base <= max. |
| PulseRollup.PulseRelayRollup.constructor | apps/web/src/pulse-relay-rollup.ts:65-74 | The scheduler starts with the ordered inbox relays idle and due, and one armed timer. |
| PulseRollup.PulseRelayRollup.ClearScheduledPump | apps/web/src/pulse-relay-rollup.ts:76-81 | Clearing leaves no timer and nothing else changed. |
| PulseRollup.PulseRelayRollup.SchedulePump | apps/web/src/pulse-relay-rollup.ts:83-93 | Arming replaces the timer unless the scheduler is stopped; the delay is never negative. |
| PulseRollup.PulseRelayRollup.RunRelayQuery | apps/web/src/pulse-relay-rollup.ts:125-128 | Starting a query marks that relay, and only that relay, in flight. |
| PulseRollup.PulseRelayRollup.StartDue | apps/web/src/pulse-relay-rollup.ts:102-114 | The loop of the pump starts the most urgent due relays that fit, in comparator order, and changes nothing else. |
| PulseRollup.PulseRelayRollup.ArmTimer | apps/web/src/pulse-relay-rollup.ts:116-122 | The end of the pump arms the timer for the idle relay that is due first, or not at all. |
| PulseRollup.PulseRelayRollup.RunPump | apps/web/src/pulse-relay-rollup.ts:95-123 | A pump clears the timer, starts what is due and re-arms, unless the scheduler is stopped. |
| PulseRollup.PulseRelayRollup.OnTimer | apps/web/src/pulse-relay-rollup.ts:89-92 | A timer tick forgets the timer and pumps. |
| PulseRollup.PulseRelayRollup.OnFulfilled | apps/web/src/pulse-relay-rollup.ts:129-137 | A success resets the failures, sets the cooldown and notifies, unless stopped. |
| PulseRollup.PulseRelayRollup.OnRejected | apps/web/src/pulse-relay-rollup.ts:138-150 | A failure is counted, sets the backoff and notifies, unless stopped. |
| PulseRollup.PulseRelayRollup.OnFinally | apps/web/src/pulse-relay-rollup.ts:151-154 | The relay becomes idle and the scheduler pumps, stopped or not. |
| PulseRollup.PulseRelayRollup.StopRollup | apps/web/src/pulse-relay-rollup.ts:159-164 | Stop sets the flag and clears the timer. |
| NoteReconciliation.ExactlyOneCopy | apps/web/src/app-state.tsx:1187-1247 | In every state of every run that interleaves at most one publish success, at most one server reply, any relay refreshes and any change to other notes, exactly one note carries one of the ids of the post. |
| NoteReconciliation.EventIdIffPublishedFirst | apps/web/src/app-state.tsx:1201-1243 | In every state after both the publish success and the server reply, the copy carries the event id if and only if the publish success came first; otherwise it keeps the local id of the server. |
| NoteReconciliation.NoOtherNoteDropped | apps/web/src/app-state.tsx:1556-1683 | No publish success, server reply or refresh drops a note of another post; only a refresh may even change one. |
| NoteReconciliation.PublishStep | apps/web/src/app-state.tsx:1201-1210 | The publish success turns the one copy into one copy, whether the server has replied or not, and touches no other note. |
| NoteReconciliation.ReplyStep | apps/web/src/app-state.tsx:1560-1580 | The server reply turns the one copy into one copy, published or not, and touches no other note. |
| NoteReconciliation.RefreshStep | apps/web/src/app-state.tsx:1661-1683 | A relay refresh with any number of echoes keeps the one copy and every other note. |
| NoteReconciliation.ReplyFindsCopy | apps/web/src/app-state.tsx:1561-1563 | The server reply always finds the copy: by the optimistic id, or by equivalence once it is published. |
| NoteReconciliation.EchoIsRecognised | apps/web/src/app-state.tsx:1685-1713 | While the copy still has a local id, the relay echo of the post is recognised as its equivalent. |
| NoteReconciliation.LocalIsNotRelayBacked | apps/web/src/app-state.tsx:1657-1659 | A local id is never taken for an event id. |
| NoteReconciliation.StartHasOneCopy | apps/web/src/app-state.tsx:1539-1554 | Adding the optimistic note to a state without the post gives a state with one copy. |
| NoteConvergence.RefreshIdempotent | apps/web/src/app-state.tsx:1661-1683 | Merging the same batch again changes nothing, not even the order. |
| NoteConvergence.RefreshesCommute | apps/web/src/app-state.tsx:1661-1683 | Two batches in either order leave the same note under every id: equal fields, replies and reactions, and the same set of tagged keys. |
| NoteConvergence.RefreshById | apps/web/src/app-state.tsx:1661-1683 | What a refresh leaves under an id: the current note, merged with the note of the batch unless that one only echoes a local note. |
| NoteContents.LeftOutIffEcho | apps/web/src/app-state.tsx:1661-1713 | A relay note is missing from the merged state if and only if its id is new to the state and every note the batch has for this id is alike a "note-" note of the state: same geohash, author, trimmed content, reply target and root, parsed times at most 5000 ms apart (equal texts when one does not parse). |
| NoteContents.EquivalentIsAlike | apps/web/src/app-state.tsx:1695-1713 | The equivalence of notes is exactly that condition on their fields. |
| NoteContents.EventIdsAreHex | apps/web/src/app-state.tsx:1657-1659 | An id counts as an event id exactly when it has, trimmed, 64 hex digits of either case. |
| NoteContents.RefreshMerges | apps/web/src/app-state.tsx:1669-1678 | A note both sides have takes the fields of the relay, the larger replies and reactions of both, the tagged keys of both, and the references of the state where the relay has none. |
| NoteContents.RefreshAdds | apps/web/src/app-state.tsx:1669-1678 | A note only the relay has is taken over field by field, its tagged keys deduplicated. |
| NoteContents.RefreshKeeps | apps/web/src/app-state.tsx:1661-1678 | A note only the state has is not touched. |
| NoteContents.RefreshIsNewestFirst | apps/web/src/app-state.tsx:1680-1682 | The merged notes come newest first by their creation time. |
| NoteContents.ReplyConsumes | apps/web/src/app-state.tsx:1560-1580 | A server reply replaces, at the head of the list, the first note with the optimistic id, or else the first note alike its own, and no other; the merged fields are written out. |
| NoteContents.ReplyAdds | apps/web/src/app-state.tsx:1565-1567 | When there is no such note the reply is added in front. |
| NoteContents.NewNoteCountsOnce | apps/web/src/app-state.tsx:1539-1554 | A new note comes first, the note it answers gains exactly one reply, and nothing else changes. |
| NoteContents.DedupeInOrder | apps/web/src/app-state.tsx:1652-1655 | Deduplicated keys stand in the order they first appear in. |
| NoteConvergence.RefreshKeepsCounts | apps/web/src/app-state.tsx:1670-1677 | A refresh keeps every note and lowers no reply or reaction count. |
| NoteConvergence.ReplyKeepsCounts | apps/web/src/app-state.tsx:1569-1577 | A server reply lowers no count of either note it merges. |
| NoteConvergence.CountsNeverDrop | apps/web/src/app-state.tsx:1556-1683 | No publish success, server reply or relay refresh of any run lowers a reply or reaction count, neither of the one copy of the post nor of any other note, although the published form carries none. |
| NoteConvergence.MergeReactionsIsJoin | apps/web/src/app-state.tsx:1636-1650 | Merging reactions is the least upper bound of the two counts. |
| NoteConvergence.MergeReactionsLaws | apps/web/src/app-state.tsx:1636-1650 | Merging reactions is commutative and absorbs what it already holds. |
| NoteConvergence.MergeReactionsAssociative | apps/web/src/app-state.tsx:1636-1650 | Merging reactions is associative. |
| NoteConvergence.DedupeKeepsTags | apps/web/src/app-state.tsx:1652-1655 | Deduplicating keys keeps exactly the trimmed, non-empty ones. |
| NoteConvergence.DedupeTwice | apps/web/src/app-state.tsx:1652-1655 | Adding keys that are already there and deduplicating changes nothing, order included. |
| NoteConvergence.LocalsUnchanged | apps/web/src/app-state.tsx:1661-1693 | A refresh leaves the local notes alone, so it never changes which echoes are recognised. |
| Notes.RunMergeReactions | apps/web/src/app-state.tsx:1636-1650 | The loop over both collections, in any order of their entries, computes the merge. |
| Notes.RunMergeRelayNotes | apps/web/src/app-state.tsx:1661-1683 | The loop over the relay notes and its final sort compute the specified merge. |
| ReplyTagLaws.TagsRoundTrip | apps/web/src/nostr.ts:1122-1155 | Parsing the NIP-10 tags built for a reply to any note gives back the id of the target and its root (or the target itself), trimmed and lower-cased; blank ids are covered too. |
| ReplyTagLaws.RepliesKeepRoot | apps/web/src/nostr.ts:992-1018 | In a thread of any shape and length whose replies travelled through a relay, every reply points at the note it answers and has the first note as its root. |
| ReplyTagLaws.RepliesAreConserved | apps/web/src/nostr.ts:1020-1041 | Whatever messages a query receives, the reply counts of its result add up to the number of notes whose target is in the result. |
| ReplyTagLaws.ReactionsAreCounted | apps/web/src/nostr.ts:626-636 | Every received reaction is counted once, under its own note and emoji. |
| ReplyTagLaws.CollectedIdsDistinct | apps/web/src/nostr.ts:618-624 | A query collects each event id once. |
| ReplyTagMeaning.ReplyTagsShape | apps/web/src/nostr.ts:1122-1155 | The tags of a reply, literally: the geohash, a marked "root" and a marked "reply" reference or one "root" reference, each with relay and author key, then the keys; a note that is no reply carries its geohash only. |
| ReplyTagMeaning.ReplyTagsKeys | apps/web/src/nostr.ts:1133-1152 | The "p" tags of a reply are exactly those of the author and everybody the target tags that have a hex form. |
| ReplyTagMeaning.DistinctInOrder | apps/web/src/nostr.ts:1133-1137 | The keys of a reply are taken in the order they first appear in. |
| ReplyTagMeaning.MarkersDecide | apps/web/src/nostr.ts:1253-1271 | The first event tag marked "root" gives the root and the first one marked "reply" the target; either stands for both when the other is missing. |
| ReplyTagMeaning.PositionsDecide | apps/web/src/nostr.ts:1273-1291 | Without markers the first event tag gives the root and the last one the target; without event tags there is neither. |
| ReplyTagMeaning.TagValueIsFirst | apps/web/src/nostr.ts:1210-1228 | The value of a tag name is that of its first tag with a non-blank value, trimmed and lower-cased. |
| ReplyTagMeaning.LastTagValueIsLast | apps/web/src/nostr.ts:1242-1251 | The last value of a tag name is that of its last such tag. |
| ReplyTagMeaning.EventBecomesNote | apps/web/src/nostr.ts:992-1018 | The note a relay event stands for, field by field, and when there is none. |
| ReplyTagMeaning.EventBecomesReaction | apps/web/src/nostr.ts:1043-1061 | The reaction a relay event stands for: to its last event tag, with its trimmed text or "+". |
| ReplyTagMeaning.NoReactionTarget | apps/web/src/nostr.ts:1049-1052 | An event without an event tag is no reaction. |
| ReplyTagMeaning.LastEventWins | apps/web/src/nostr.ts:618-624 | Of several events with one id the last one received counts. |
| ReplyTagMeaning.QueryReturns | apps/web/src/nostr.ts:1034-1039 | Every collected note is returned with its own reply count and its own reactions, and otherwise as it was. |
| ReplyTagMeaning.QueryIsNewestFirst | apps/web/src/nostr.ts:1040 | A query returns the latest creation text first. |
| ReplyTags.BuildGeoNoteTags | apps/web/src/nostr.ts:1122-1155 | The tag-pushing code builds the geohash tag, the one or two marked event tags and the key tags, in this order. |
| ReplyTags.CountReplies | apps/web/src/nostr.ts:1024-1039 | The counting loops give every note the number of notes that target it, and its collected reactions. |
| ReplyTags.FinalizeQueriedGeoNotes | apps/web/src/nostr.ts:1020-1041 | Counting and then sorting by creation text, newest first. |
| AuditPaging.ReadsWholeLogOnce | apps/concierge/internal/store/memory.go:247-294 | A reader who follows the cursors to the end, while entries are appended between requests, receives exactly the log as it stood at the first request, newest first, each entry once, in ceil(n/limit) pages (one when empty). |
| AuditPaging.NeverStuck | apps/concierge/internal/store/memory.go:247-282 | No such request fails, and a reader who has not reached the end has seen fewer than ceil(n/limit) pages. |
| AuditPaging.CursorResumes | apps/concierge/internal/store/memory.go:259-270 | A page resumes right after an entry, skipping and repeating nothing, if and only if no older entry has a later time and no newer entry an earlier one. |
| AuditPaging.ClockSetBackSkips | apps/concierge/internal/store/memory.go:259-270 | A log of two entries, the second with the earlier time, of which a reader misses the first. |
| AuditPaging.StoreCodecIsFaithful | apps/concierge/internal/store/cursor.go:23-54 | For 64-bit ids and times, no encoded cursor is empty and decoding it gives time and id back. |
| AuditPaging.StorePagesByItsCodec | apps/concierge/internal/store/memory.go:247-282 | The page the store serves is the one cut by its own cursor codec. |
| AuditCursor.CursorRoundTrip | apps/concierge/internal/store/cursor.go:23-54 | Printing and parsing a cursor gives the id and the time wrapped to 64 bits, which is the time itself if and only if it fits, and never the time that stands for "no cursor". |
| AuditCursor.ParsePrintInt | apps/concierge/internal/store/cursor.go:44-51 | Parsing a printed 64-bit integer gives it back, and no printed integer contains the separator. |
| AuditCursor.PrintsDecimal | apps/concierge/internal/store/cursor.go:23-27 | Numbers are printed in decimal notation. |
| AuditCursor.CursorText | apps/concierge/internal/store/cursor.go:23-27 | A cursor text is the time in nanoseconds, a colon and the id, shown on an entry. |
| AuditCursor.ClampLimit | apps/concierge/internal/store/cursor.go:13-21 | A page size from 1 to 100 is kept, a larger one becomes 100, and none or a negative one becomes 20. |
| StoreRuns.RunsOnlyAppend | apps/concierge/internal/store/memory.go:26-94 | Over any sequence of Create calls nothing stored is changed or removed, and every call takes the next id. |
| StoreRuns.AuditLogIsOrdered | apps/concierge/internal/store/memory.go:284-294 | On a nondecreasing clock, with creation times left to the store, the audit log of every run of all seven Create calls is ordered by id and by time. |
| StoreRuns.CreatedStandingIsFound | apps/concierge/internal/store/memory.go:38-48 | A created standing record gets the next id, the time of the call when it has none and the scope "relay" when it names none, keeps its other fields, and, unless revoked, is the one found in its scope. |
| StoreRuns.CreatedPermissionIsFound | apps/concierge/internal/store/memory.go:50-59 | The same for a room permission, found for its subject and room. |
| StoreRuns.CreatedProofIsFound | apps/concierge/internal/store/memory.go:61-70 | The same for a proof, found for its subject and type. |
| StoreRuns.CreatedGateIsFound | apps/concierge/internal/store/memory.go:72-83 | The same for a gate policy, found in its own scope, and in every scope when it is for "relay". |
| StoreRuns.CreatedAssignmentIsFound | apps/concierge/internal/store/memory.go:26-36 | The same for a policy assignment, which is among the active ones of its subject. |
| StoreRuns.CreatedAuditIsFirst | apps/concierge/internal/store/memory.go:284-294 | The same for an audit entry, which opens the first page. |
| StoreRuns.CreatedPinIsStored | apps/concierge/internal/store/memory.go:85-94 | The same for an editorial pin. |
| MemoryStore.Store.constructor | apps/concierge/internal/store/memory.go:22-24 | A new store is empty. |
| MemoryStore.Store.CreatePolicyAssignment | apps/concierge/internal/store/memory.go:26-36 | Appends one assignment with the next id, a creation time and a default scope; nothing else changes. |
| MemoryStore.Store.CreateStandingRecord | apps/concierge/internal/store/memory.go:38-48 | Appends one standing record with the next id, a creation time and a default scope; nothing else changes. |
| MemoryStore.Store.CreateRoomPermission | apps/concierge/internal/store/memory.go:50-59 | Appends one room permission with the next id and a creation time; nothing else changes. |
| MemoryStore.Store.CreateProofVerification | apps/concierge/internal/store/memory.go:61-70 | Appends one proof with the next id and a creation time; nothing else changes. |
| MemoryStore.Store.CreateGatePolicy | apps/concierge/internal/store/memory.go:72-83 | Appends one gate policy with the next id, a creation time and a default scope; nothing else changes. |
| MemoryStore.Store.CreateEditorialPin | apps/concierge/internal/store/memory.go:85-94 | Appends one editorial pin with the next id and a creation time; nothing else changes. |
| MemoryStore.Store.CreateAuditEntry | apps/concierge/internal/store/memory.go:284-294 | Appends one audit entry with the next id, a creation time and a default scope; nothing else changes. |
| MemoryStore.Store.LatestStanding | apps/concierge/internal/store/memory.go:296-301 | The two backward scans find the newest unrevoked record in the scope, else the newest in the default scope. |
| MemoryStore.Store.ScanStanding | apps/concierge/internal/store/memory.go:374-382 | One backward scan finds the newest unrevoked record of one scope. |
| MemoryStore.Store.LatestRoomPermission | apps/concierge/internal/store/memory.go:303-315 | The backward scan finds the newest unrevoked permission of a subject in a room. |
| MemoryStore.Store.LatestProofVerification | apps/concierge/internal/store/memory.go:317-330 | The backward scan finds the newest unrevoked proof of a type. |
| MemoryStore.Store.LatestGatePolicy | apps/concierge/internal/store/memory.go:332-350 | The backward scan finds the newest unrevoked gate policy of the scope or the default scope. |
| MemoryStore.Store.ActivePolicyAssignments | apps/concierge/internal/store/memory.go:352-367 | The forward scan collects all unrevoked assignments of the scope or the default scope, oldest first. |
| MemoryStore.Store.ScanAudit | apps/concierge/internal/store/memory.go:256-270 | The reversed scan collects the entries beyond the cursor, newest first. |
| MemoryStore.Store.ListAuditEntries | apps/concierge/internal/store/memory.go:247-282 | One page: the first entries beyond the cursor, and a cursor to the last of them when more remain; a bad cursor is an error. |
| RateLimiterLaws.RefinesFullHistory | apps/concierge/internal/httpapi/admin_rate_limit.go:35-59 | On a nondecreasing clock every call is decided as by a limiter that remembers all admissions. |
| RateLimiterLaws.StoredIsWindowOfHistory | apps/concierge/internal/httpapi/admin_rate_limit.go:39-57 | After a call on a key its stored slice is exactly the admission history inside the window. |
| RateLimiterLaws.WindowBound | apps/concierge/internal/httpapi/admin_rate_limit.go:48-58 | No closed interval as long as the window holds more than `limit` admissions of one key. |
| RateLimiterLaws.RetryAfterIsTight | apps/concierge/internal/httpapi/admin_rate_limit.go:48-55 | After a refusal at t with retry time r, calls up to t + r are refused and the first one strictly later is admitted; 0 <= r <= window, so the clamp never fires. |
| RateLimiterLaws.PanicsIffNoLimit | apps/concierge/internal/httpapi/admin_rate_limit.go:48-49 | The index of an empty slice is read, a run-time panic, if and only if the limit is not positive. |
| RateLimiterLaws.KeysAreIndependent | apps/concierge/internal/httpapi/admin_rate_limit.go:39-57 | What is stored for a key depends on the calls on that key alone. |
| RateLimiter.Limiter.Allow | apps/concierge/internal/httpapi/admin_rate_limit.go:35-59 | One call: the decision, the new slice of the key, and every other key unchanged. |
| RateLimiter.Limiter.Compact | apps/concierge/internal/httpapi/admin_rate_limit.go:40-46 | Filtering a slice into its own backing array keeps exactly the recent timestamps, in order. |
| RateLimiter.Limiter.Append | apps/concierge/internal/httpapi/admin_rate_limit.go:57 | Appending extends the slice in its own array or in a new one. |
| RateLimiter.Limiter.constructor | apps/concierge/internal/httpapi/admin_rate_limit.go:26-33 | A new limiter remembers nothing. |
| CircuitBreakerLaws.CallBound | apps/concierge/internal/relayshim/shim.go:71-130 | An upstream that always fails has been called, by time T after the breaker first opened, at most FailureThreshold + HalfOpenFailureThreshold * floor(T / RecoveryTimeout) times; fewer than FailureThreshold times before that. |
| CircuitBreakerLaws.CountersBelowThresholds | apps/concierge/internal/circuitbreaker/circuitbreaker.go:64-125 | With positive thresholds, under any interleaving of asks and outcomes, closed means the failures in a row are below their threshold and half-open means both half-open counters are below theirs. |
| CircuitBreakerLaws.RefusesIffOpen | apps/concierge/internal/circuitbreaker/circuitbreaker.go:64-136 | `Allow` refuses exactly while `State` reports open, under every interleaving of asks and outcomes, if and only if the half-open failure threshold is positive. |
| CircuitBreakerLaws.DefaultsArePositive | apps/concierge/internal/circuitbreaker/circuitbreaker.go:41-62 | After the defaults are filled in, the settings are positive if and only if none was negative. |
| CircuitBreakerLaws.DefaultSettings | apps/concierge/internal/circuitbreaker/circuitbreaker.go:17-20 | The default settings, and that positive settings are kept. |
| CircuitBreakerLaws.ClosedCountsStreak | apps/concierge/internal/circuitbreaker/circuitbreaker.go:107-117 | A closed breaker has counted exactly the failures since the last success. |
| CircuitBreakerLaws.HalfOpenCountsTrial | apps/concierge/internal/circuitbreaker/circuitbreaker.go:96-124 | A half-open breaker has counted exactly the successes and failures since it became half-open. |
| CircuitBreakerLaws.StateChanges | apps/concierge/internal/circuitbreaker/circuitbreaker.go:64-125 | When the breaker opens, tries again and closes, told from the operations alone, and when it records its opening time. |
| CircuitBreakerLaws.AnswersVerdict | apps/concierge/internal/relayshim/shim.go:61-144 | A line is accepted if and only if it is a new event and its own upstream call allowed it; a denying verdict is passed on with its reason; every other answer is unavailable, silent, or a failure, each exactly when it should be. |
| CircuitBreakerLaws.CallsUnlessRefused | apps/concierge/internal/relayshim/shim.go:67-98 | Upstream is asked exactly for the new events that arrive while the breaker does not report open, at a valid endpoint. |
| CircuitBreakerLaws.NothingAcceptedUnasked | apps/concierge/internal/relayshim/shim.go:130-137 | Over whole runs nothing is accepted without an upstream call in that exchange that allowed it. |
| CircuitBreakerLaws.RunsAreOperations | apps/concierge/internal/relayshim/shim.go:73-130 | The breaker of the shim after any run is the one left by asking once per new event and recording one outcome per call: a delivered verdict as a success, whether it allows or denies, every other end of the call as a failure. So every law about operations holds of the shim. |
| CircuitBreakerLaws.WedgesIff | apps/concierge/internal/relayshim/shim.go:61-144 | A sequential run of the shim from a fresh breaker can come to rest wedged (half-open, refusing, and reported as half-open) if and only if the endpoint is valid, the half-open failure threshold is not positive and closing takes more than one success. |
| CircuitBreakerLaws.WedgingRunWedges | apps/concierge/internal/relayshim/shim.go:61-144 | The run that wedges it: failures until the breaker opens, then one success once the recovery time is over. |
| CircuitBreakerLaws.WedgedForEver | apps/concierge/internal/circuitbreaker/circuitbreaker.go:79-83 | A wedged breaker refuses every later line of every run and never changes. |
| CircuitBreaker.Breaker.constructor | apps/concierge/internal/circuitbreaker/circuitbreaker.go:41-62 | A new breaker is closed with zero counters; zero settings are replaced by the defaults. |
| CircuitBreaker.Breaker.Allow | apps/concierge/internal/circuitbreaker/circuitbreaker.go:64-87 | Whether a call passes, and the move from open to half-open once the recovery time is over. |
| CircuitBreaker.Breaker.RecordSuccess | apps/concierge/internal/circuitbreaker/circuitbreaker.go:89-105 | The new state after a success. |
| CircuitBreaker.Breaker.RecordFailure | apps/concierge/internal/circuitbreaker/circuitbreaker.go:107-125 | The new state after a failure, and the opening time. |
| CircuitBreaker.Breaker.ReadState | apps/concierge/internal/circuitbreaker/circuitbreaker.go:127-136 | The reported state, half-open once the recovery time is over. |
| CircuitBreaker.Processor.constructor | apps/concierge/internal/relayshim/shim.go:45-59 | A processor starts with a fresh breaker. |
| CircuitBreaker.Processor.ProcessLine | apps/concierge/internal/relayshim/shim.go:61-144 | One line: the output, whether upstream was called, and the breaker afterwards, for every way the line and the call can fail. |
| PolicyLaws.EvaluateRefinesRule | apps/concierge/internal/policy/service.go:68-219 | `Evaluate` allows exactly what the declarative rule permits: the operator; or, with no ban, suspension or active block on any alias, the base rule of the capability and every gate. |
| PolicyLaws.ProofsAndGuestsNeverHurt | apps/concierge/internal/policy/service.go:368-462 | Adding any proofs and non-blocking assignments never turns an allow into a deny. |
| PolicyLaws.AddingProofRelaxes | apps/concierge/internal/store/memory.go:61-70 | Creating a proof record is such an addition. |
| PolicyLaws.AddingAssignmentRelaxes | apps/concierge/internal/store/memory.go:26-36 | Creating a guest record, or any assignment that is no active block, is such an addition. |
| PolicyLaws.BlockIsPermanent | apps/concierge/internal/policy/service.go:99-120 | Once blocked, a subject is denied everything whatever is appended later, unless it is the operator. |
| PolicyFrames.RevokingChangesNothing | apps/concierge/internal/store/memory.go:303-394 | Appending a revoked record of any kind changes no decision and no grant. |
| PolicyFrames.IrrelevantRecords | apps/concierge/internal/policy/service.go:274-362 | Appending a record that is revoked, or of another subject, or a permission for another room, changes no decision about the subject and the room, and no grant. |
| PolicyFrames.OtherRoomsDoNotMatter | apps/concierge/internal/store/memory.go:303-315 | A permission for one room changes no decision and no grant for another. |
| PolicyRecords.MediaNeedsRoomRecord | apps/concierge/internal/policy/service.go:144-216 | Without privilege, a media capability is allowed only by a stored, unrevoked record of an alias for this very room that carries the right, the newest one; joining also by a default grant when there is no record for the room. |
| PolicyRecords.GrantsAreRecorded | apps/concierge/internal/livekit/tokens.go:100-121 | A token carries full rights for the operator and the privileged, else those of the newest record for the room, else those of the default grant, and is refused otherwise. |
| PolicyRecords.PermissionIsRecorded | apps/concierge/internal/policy/service.go:303-330 | The permission found is the newest unrevoked record for the room over all aliases, the first alias winning a tie. |
| PolicyRecords.StandingIsRecorded | apps/concierge/internal/policy/service.go:274-301 | The standing found is that of the newest record over all aliases, each alias answering with its last unrevoked record in the scope or else in "relay"; guest without any. |
| PolicyRecords.StandingOfIsOfAlias | apps/concierge/internal/store/memory.go:373-394 | The standing of one alias, told from the records. |
| PolicyRecords.GateIsRecorded | apps/concierge/internal/policy/service.go:464-482 | The gate in force is the last unrevoked one for the capability in its scope or in "relay"; else, for joining media, the configured proofs; else none. |
| PolicyRecords.ScopesOfCapabilities | apps/concierge/internal/policy/service.go:248-257 | Which scope each capability is judged in. |
| PolicyRecords.AliasesOfKey | apps/concierge/internal/pubkeys/pubkeys.go:43-74 | The aliases of a key are its canonical form, its npub form and its given spelling, up to case, each once, and nothing else; none for a blank key. |
| PolicyRecords.HexAndNpubAgree | apps/concierge/internal/pubkeys/pubkeys.go:10-41 | A hex key and its npub form, in whatever case and padding, are the same key. |
| PolicyRecords.BlankIsNobody | apps/concierge/internal/pubkeys/pubkeys.go:10-49 | A blank key has no aliases and is the same as no key, not even another blank one, so without an operator key nobody is the operator. |
| PolicyRecords.OtherKeysAreKept | apps/concierge/internal/pubkeys/pubkeys.go:16-23 | What is neither blank nor the npub form of a key is kept, trimmed and lower-cased. |
| PolicyRecords.ReasonsAreExact | apps/concierge/internal/policy/service.go:68-219 | Every decision gives exactly the reason the records call for, for all fifteen reasons of an error-free store. |
| PolicyRecords.DecisionsReport | apps/concierge/internal/policy/service.go:55-234 | Every decision names the capability asked for and the standing it is based on, for media the first privileged one of three scopes; a requirement is reported missed exactly when the reason says so, and never by an allow. |
| PolicyRecords.GatesAreReported | apps/concierge/internal/policy/service.go:390-432 | A decision reports the guest list first, when required, and then every proof in order, each as the records have it. |
| PolicyRecords.FirstMissingIsNamed | apps/concierge/internal/policy/service.go:410-444 | A decision that misses proofs names the first missing one that has a name. |
| PolicyLaws.JoinImpliesToken | apps/concierge/internal/livekit/tokens.go:100-121 | Whoever `Evaluate` lets join a room is granted a token. |
| PolicyLaws.PublishRightsAgree | apps/concierge/internal/livekit/tokens.go:100-121 | For a subject who may join, `Evaluate` allows publishing if and only if its token does and the subject is the operator, or meets the publish gate and is privileged or has a room permission of its own. |
| PolicyLaws.DefaultGrantPublishes | apps/concierge/internal/livekit/tokens.go:109-118 | The state in which the two services disagree: with an empty store, a default grant puts the right to publish into a token while `Evaluate` denies it. |
| PolicyLaws.NewestWins | apps/concierge/internal/policy/service.go:281-300 | Folding over aliases returns a newest answer, the first one on a tie, and none if and only if no alias has one. |
| PolicyLaws.WinnerIsUnique | apps/concierge/internal/policy/service.go:281-300 | That answer is determined: the one newer than all earlier and at least as new as all later ones. |
| PolicyLaws.LatestWhereIsLatest | apps/concierge/internal/store/memory.go:303-350 | A backward scan returns a matching record after which nothing matching was appended, and nothing if and only if none matches. |
| PolicyLaws.HasTypeIffAssigned | apps/concierge/internal/policy/service.go:332-347 | The collected assignments have one of a type if and only if some alias has an active record of it in the scope or the default scope. |
| PolicyLaws.HasProofIffProven | apps/concierge/internal/policy/service.go:349-362 | The proof lookup succeeds if and only if some alias holds an unrevoked proof of the type. |
| PolicyLaws.GateFilters | apps/concierge/internal/policy/service.go:368-462 | A gate policy never turns a deny into an allow, and passes an allow if and only if guest list and all proofs are met. |
| Policy.Service.Evaluate | apps/concierge/internal/policy/service.go:68-219 | The decision with reason, standing, scope and gates, on every path of an error-free store. |
| Policy.Service.EvaluateMedia | apps/concierge/internal/policy/service.go:144-218 | The media branch: standing, room permission, default listener grant, gates. |
| Policy.Service.CheckAdminAccess | apps/concierge/internal/policy/service.go:55-66 | The admin decision. |
| Policy.Service.ApplyGatePolicy | apps/concierge/internal/policy/service.go:368-388 | The base decision when there is no gate policy, else the outcome of the gate. |
| Policy.Service.PassGate | apps/concierge/internal/policy/service.go:390-461 | The outcome of one gate policy: guest list first, then all proofs. |
| Policy.Service.CheckProofs | apps/concierge/internal/policy/service.go:410-432 | The proof loop: the status of every proof, and the first missing one. |
| Policy.Service.EffectiveGatePolicy | apps/concierge/internal/policy/service.go:464-482 | The stored gate policy, or the configured one for joining media. |
| Policy.Service.LookupPrivilegedMediaStanding | apps/concierge/internal/policy/service.go:221-234 | The first privileged standing among the given one and two further scopes. |
| Policy.Service.LookupStanding | apps/concierge/internal/policy/service.go:236-242 | The newest standing, or guest. |
| Policy.Service.LatestStandingRecord | apps/concierge/internal/policy/service.go:274-301 | The newest standing record over all aliases. |
| Policy.Service.FoldStandings | apps/concierge/internal/policy/service.go:281-300 | The loop over aliases keeps the newest answer. |
| Policy.Service.LatestRoomPermission | apps/concierge/internal/policy/service.go:303-330 | The newest room permission over all aliases. |
| Policy.Service.FoldPermissions | apps/concierge/internal/policy/service.go:310-329 | The loop over aliases keeps the newest answer. |
| Policy.Service.ActivePolicyAssignments | apps/concierge/internal/policy/service.go:332-347 | The active assignments of all aliases, alias by alias. |
| Policy.Service.FoldAssignments | apps/concierge/internal/policy/service.go:336-346 | The loop over aliases concatenates the answers. |
| Policy.Service.HasProofVerification | apps/concierge/internal/policy/service.go:349-362 | Whether some alias holds a proof. |
| Policy.Service.FindProof | apps/concierge/internal/policy/service.go:353-361 | The loop over aliases stops at the first proof. |
| Policy.Service.HasBlock | apps/concierge/internal/policy/service.go:110-120 | The loop over assignments finds a block if there is one. |
| RoomTokens.TokenService.ComputeRoomGrants | apps/concierge/internal/livekit/tokens.go:100-121 | The publish and subscribe rights of a token, or the missing-permission error. |
| RoomTokens.TokenService.HasPrivilegedRoomAccess | apps/concierge/internal/livekit/tokens.go:123-135 | Whether the newest standing in one of three scopes is privileged. |
| RoomTokens.TokenService.LatestStandingRecord | apps/concierge/internal/livekit/tokens.go:137-164 | The newest standing record over all aliases. |
| RoomTokens.TokenService.LatestRoomPermission | apps/concierge/internal/livekit/tokens.go:166-193 | The newest room permission over all aliases. |
| PulseFeedItems.FeedConservesPosts | apps/web/src/data.ts:585-606 | The posts of the finished feed are a permutation of the posts that went in, and every feed item counts its own. |
| PulseFeedItems.BuildPulseFeedItems | apps/web/src/data.ts:585-606 | Tagging, sorting, grouping, ranking and presenting compute the finished feed. |
| PulseFeedItems.CollectFollowed | apps/web/src/data.ts:589-593 | The loop collects the normalised, non-empty followed keys. |
| PulseFeedItems.Present | apps/web/src/data.ts:701-724 | One feed item per group, in order. |
| PulseFeedItems.RankedGroupsNotEmpty | apps/web/src/data.ts:653-670 | No ranked group is empty, so every one has a latest item. |
| PulseFeedLaws.GroupsAreMaximalBursts | apps/web/src/data.ts:610-651 | Grouping cuts the list into consecutive bursts, each as long as it can be: all members share lane, relay, author and geohash with the first and lie within 2700000 ms of it, and the next item does not. |
| PulseFeedLaws.PagesAreSortedPermutations | apps/web/src/data.ts:653-670 | In each lane the groups at positions 30k to 30k+29 are a permutation of the groups at the same chronological positions, the higher score first, then the newer first item, then the smaller id: nothing crosses a page boundary. |
| PulseFeedLaws.ByRankIsRankedBefore | apps/web/src/data.ts:672-687 | The ranking comparator is exactly that order. |
| PulseFeedLaws.ScoreIsAdditive | apps/web/src/data.ts:689-699 | The score of a group is the sum over its items. |
| PulseFeedLaws.ScoreOfOne | apps/web/src/data.ts:689-699 | The score of an item is the sum of its four numbers. |
| PulseFeedLaws.MergeAbsorbs | apps/web/src/data.ts:551-583 | Merging a merged feed with further collections gives exactly the feed of all collections. |
| PulseFeedLaws.MergedHasNoClash | apps/web/src/data.ts:551-583 | No two items of a merged feed share a non-empty id or a fallback key. |
| PulseFeedLaws.DroppedClashesWithEarlier | apps/web/src/data.ts:551-583 | Every item of the input is in the feed or clashes with an earlier item that is. |
| PulseFeedOrder.MergeIsNewestFirst | apps/web/src/data.ts:582 | The merged feed is newest first: readable times in descending order, then unreadable ones, missing ones last, equal ones in descending collation. |
| PulseFeedOrder.FeedItemShowsLatest | apps/web/src/data.ts:701-724 | Every finished feed item presents a burst of input items: the fields of its first item, which is a latest one, and the posts of all of them, newest first. |
| PulseFeedOrder.DuplicatesIffPlain | apps/web/src/data.ts:556-572 | Clashing with an item means sharing its non-blank trimmed id or all five fields of its fallback key, whatever the other item, if and only if none of its own five fields holds the separator. |
| PulseFeedOrder.MissingIffDuplicate | apps/web/src/data.ts:556-579 | The first occurrence of an item without the separator is missing from the merged feed if and only if an earlier item that is in the feed has its id or all its fields. |
| PulseFeedOrder.LanesByFollow | apps/web/src/data.ts:589-602 | An item is in the Following lane exactly when it comes from a direct follow or its author is followed. |
| PulseFeedOrder.ForYouFirst | apps/web/src/data.ts:657-667 | The "For You" lane comes before the "Following" lane. |
| PulseFeedLaws.RankConserves | apps/web/src/data.ts:653-670 | Ranking loses and invents no post. |
| PulseFeedLaws.RankedAreGroups | apps/web/src/data.ts:653-670 | Every ranked group is one of the groups that went in. |
| PulseFeedLaws.ByRankIsTotalPreorder | apps/web/src/data.ts:672-687 | The ranking comparator is a total preorder, as sorting needs. |
| PulseFeed.MergeCrossRelayFeedItems | apps/web/src/data.ts:551-583 | The loops with their two seen sets keep each item that clashes with none kept before it, and sort them by time. |
| PulseFeed.BuildPulseFeedGroups | apps/web/src/data.ts:610-629 | The loop with its current group computes the specified grouping. |
| PulseFeed.RankLanePages | apps/web/src/data.ts:662-666 | The page loop sorts each slice of 30 groups on its own, the last one shorter. |
| PulseFeed.RankPulseFeedGroups | apps/web/src/data.ts:653-670 | The loop over lanes ranks each lane, "For You" first. |
| Timestamps.DescendingIsNewestFirst | apps/web/src/data.ts:227-250 | The timestamp comparator is exactly the newest-first order: the later readable time first, unreadable ones after readable ones, missing ones last, ties in descending collation. |
| Timestamps.DescendingIsTotalPreorder | apps/web/src/data.ts:227-250 | That order is a total preorder, and the comparator antisymmetric in sign, given that text collation is. |
| Text.TrimCutsBlanks | apps/concierge/internal/pubkeys/pubkeys.go:11 | Trimming cuts a blank text off either end, and as much of it as there is, and nothing else. |
| Text.LowerLetters | apps/concierge/internal/pubkeys/pubkeys.go:16 | Lower-casing maps A to Z and the Kelvin sign to their letters, by code point, and nothing else. |
| Sorting.SortSorted | apps/web/src/data.ts:582 | The sort used throughout returns an ordered permutation. |
| Sorting.SortStable | apps/web/src/data.ts:582 | ... and keeps equally ranked elements in their original order. |

## Left out

- Floating point: coordinates, delays and timestamps are exact. The bisection of the geohash codec is exact in binary floating point too until a midpoint needs more than 53 bits; rounding beyond that length is not modelled.
- Integer widths: ids, counters and the sums of scores are unbounded; only the 64-bit text of a cursor wraps around. What Go leaves undefined for times outside 64 bits is modelled as wrap-around.
- Trimming and lower-casing outside ASCII: only ASCII spaces are trimmed, and only ASCII letters and the Kelvin sign change case.
- Base64: a cursor text either wraps a payload faithfully or is not base64.
- Store errors: the store never fails, so the lookup-failure denials of `Evaluate` and the rule that turns a failed standing lookup into "guest" are not modelled.
- Fields that nothing modelled reads: metadata, grantors, gate policy names, and the display-only fields of feed items.
- Locks: every method of the breaker, the limiter and the store is atomic, as its mutex makes it. `CircuitBreakerLaws.CountersBelowThresholds` covers concurrent callers of the breaker.
- CircuitBreakerLaws.CallBound: is about sequential calls of `ProcessLine`; concurrent callers can exceed it while the breaker is half-open.
- PulseRollupRuns.BoundedOvertaking: does not cover the current relay, which has absolute priority and can win every time.
- PulseRollup.PulseRelayRollup.RunRelayQuery: a query that throws before it returns a promise, and the clamp of browser timers beyond 2^31 ms, are not modelled.
- NoteReconciliation.ExactlyOneCopy: is about posts whose copies are pairwise within the five-second window and equivalent to no other note, as the equivalence test intends; notes outside the window, and the same text posted twice within it, are not covered. Replies and reactions to a note without an event id are refused, as outside test mode.
- NoteConvergence.RefreshesCommute: compares tagged keys as sets, since their order depends on the order of the batches, and reactions as maps, since their list is sorted for display.
- Notes.RunMergeReactions: unset and empty reaction lists and key lists are not told apart, and the display order of reactions is left out.
- ReplyTags.FinalizeQueriedGeoNotes: the list form of reaction counts, with its display order, is left out.
- `relay-pool.ts`, key management, payload normalisation, admin validators and the list endpoints: they would only add easy members.
- The social service (`CreateNote`, `CreateOrReturnBeacon`, editorial pins): its default grants enter as a parameter; its own state changes would only add easy members.
- The Postgres store, which answers gate policy lookups by another precedence than the memory store.
- React components, routing, rendering, map projection, and all input and output.
