# Verified model of the incident server's stateful engines

This project models, in Dafny, the parts of the Go server that keep state or reason about it, and
proves what they are relied on for: the live-update hub and its stream handler, the TTL caches, the
login rate limiter, the reconciliation of incidents, reports and areas with requests, the retrying
transaction, the Expo receipt queue, the dashboard aggregate, area slugs, and the position bit set
carried in access tokens. `dafny verify dfyconfig.toml` checks all of it.

Concurrent code is a machine of atomic steps, and its theorems range over every interleaving. Code
that changes things in place is a class or a method with loops, each proved against a function on
values; the theorems are then about that function and about runs. The database is a store of maps
and sets with the keys the schema declares: inserting a row twice fails, referring to nothing fails,
and updating no row does nothing. Time is an integer clock that does not run backwards.

| file | what it holds |
|---|---|
| `WatchHub.dfy` | the hub and its sessions as a protocol, and as classes |
| `WatchStream.dfy` | the stream handler's event loop on top of that protocol |
| `Cache.dfy` | the cache entry and the keyed caches as a protocol, and as classes |
| `RateLimit.dfy` | the login rate limiter |
| `Incident.dfy` | the incident store, and one edit of an incident as a function |
| `IncidentLists.dfy` | what the edit's list loops come to |
| `IncidentEdit.dfy` | what one edit does as a whole |
| `IncidentRuns.dfy` | creating incidents, creating, editing and linking reports, and runs of all of them |
| `IncidentEffects.dfy` | what these operations do, field by field and entry by entry |
| `IncidentService.dfy` | the same operations step by step |
| `IncidentAreas.dfy` | how the incident store and the area service agree on places |
| `Area.dfy`, `Slug.dfy`, `Tx.dfy` | the area forest, slugs, and the transaction an area merge runs in |
| `AreaEffects.dfy` | what the area operations store and refuse, field by field |
| `AreaSeed.dfy` | how a new event is given its areas |
| `Expo.dfy`, `Metrics.dfy`, `Claim.dfy`, `Numeral.dfy` | receipt queue, dashboard, token claims, positional numerals |
| `Prelude.dfy` | options, results, and facts about sequences |

## Findings

Places where the code does less than its documentation, or a caller, would expect. Each is stated as
the exact condition under which the expected property holds.

- A report edit that changes the incident link and also the summary or the journal loses the link:
  the second part writes back the row as it was read before the link changed
  (`go/internal/incident/connect.go:1189-1194`), while both timelines already record the new link. The
  link survives exactly when nothing else was asked or it was not to change
  (`IncidentRuns.LinkSurvivesExactly`, `IncidentRuns.LostLinkIsOnTheTimelines`). A request refused for
  its second part has moved the link all the same, exactly when the caller may touch the report and the
  link part changes the link to none or to an existing incident (`IncidentRuns.RefusalLeavesNothingExactly`,
  `IncidentRuns.ReportRefusedExactly`).
- Repeating an edit without journal entries changes nothing, for every request the server can receive
  (`IncidentEdit.RequestsAreIdempotent`). The edit function also has a branch for visits, which no
  caller reaches: neither builds a payload with visits (`go/internal/incident/connect.go:1585-1631`).
  With one, it would be idempotent exactly when every visit named exists
  (`IncidentEdit.IdempotentExactly`, `IncidentEdit.MissingVisitIsReportedAgain`).
- An incident whose first edit is refused stays in the store as a bare row
  (`IncidentRuns.CreateIncidentAnswer`, with an example in `IncidentRuns.BareRowIsLeft`).
- Areas are meant to nest one level deep. Moving an area that has children below another one makes
  two levels, and of all the operations that is the only way (`Area.StepKeepsOneLevelExactly`,
  `Area.RunKeepsOneLevelExactly`, `Area.NestingCanDeepen`). The parent links stay acyclic all the same.
- Such an event may be impossible to inherit from: a new event copies the latest event's areas top-level
  rows first and then the others in sort order, which succeeds exactly when every nested row's parent is
  top-level or read earlier (`AreaSeed.CopySucceedsExactly`, `AreaSeed.NestedTwiceCannotBeCopied`). The
  new event's own row is written before that (`go/internal/event/event.go:108-138`) and stays
  (`AreaSeed.CreateEventRefusedExactly`).
- A cache whose clock is not yet a lifetime past the epoch constant serves the zero value of an entry
  that was never filled (`Cache.UnfilledServedBeforeEpoch`).
- The backoff's shortcut for large exponents, its 64-bit arithmetic and the wait it reports are right
  under conditions on the configuration, which the production policy meets
  (`RateLimit.BackoffIsIdeal`, `RateLimit.BackoffFitsInt64`, `RateLimit.WaitIsExact`,
  `RateLimit.DefaultPolicyIsSound`).
- A lockout longer than the reset window can be cut short: a failure of an attempt still in flight
  arrives as if after a long silence and starts a new streak without a lockout. It cannot when the
  lockout is at most the reset window plus one nanosecond, as in the production policy
  (`RateLimit.LockoutSurvivesExactly`).
- A token claim that begins with a minus sign and names a positive number makes reading it panic
  (`Claim.PositionsPanicExactly`); writing a negative position panics (`Claim.IntsToBitSet`).

## Model

| member | source | states |
|---|---|---|
| WatchHub.ReachableInv | go/internal/server/watchhub.go:81-145 | in every reachable state a session is registered iff its channel is open, its buffer holds at most 64 pokes, and it has no reason before it ends |
| WatchHub.StepKeepsInv | go/internal/server/watchhub.go:81-145 | every step keeps that invariant and never forgets a session |
| WatchHub.RunIsLocal | go/internal/server/watchhub.go:81-101 | in every run each session evolves by its own rule: no subscriber can affect another |
| WatchHub.PublishIsAtomic | go/internal/server/watchhub.go:81-101 | a publish delivered subscriber by subscriber in any order, with receives falling anywhere in between, ends as the whole publish at one moment, each receive before or after it according to whether its session had had its turn |
| WatchHub.ReceiptsKept | go/internal/server/watchhub.go:81-101 | that reordering neither loses nor adds a receive |
| WatchHub.ExactDelivery | go/internal/server/watchhub.go:81-101 | in every interleaving, taken plus buffered pokes are exactly those published for the session since it subscribed, in order, up to the step that ended it if one did; an end for falling behind found 64 buffered pokes |
| WatchHub.FellBehindMissesSome | go/internal/server/watchhub.go:87-99 | a session dropped for falling behind holds a strict prefix of what was published for it |
| WatchHub.EndedIsFinal | go/internal/server/watchhub.go:196-201 | once ended, a session only drains: the reason never changes and buffered pokes are still received, in order |
| WatchHub.PeekPlainly | go/internal/server/watchhub.go:164-166 | the same for the protocol's receive |
| WatchHub.DrainedReportsClose | go/internal/server/watchhub.go:196-201 | an ended session's receives report the close iff at least as many were made as pokes were buffered |
| WatchHub.ShutdownIsReported | go/internal/server/watchhub.go:105-115 | so every session learns of a shutdown, after exactly as many receives as it had pokes buffered |
| WatchHub.CloseEndedIsNoop | go/internal/server/watchhub.go:184-192 | closing a session that has ended changes nothing |
| WatchHub.CloseAfterEndUnobservable | go/internal/server/watchhub.go:184-192 | a Close that comes after the end, at any point of any run, leaves the same final state as no Close |
| WatchHub.ShutdownEndsAll | go/internal/server/watchhub.go:105-115 | a shutdown ends every session still open, keeps earlier reasons, and a second one straight after does nothing |
| WatchHub.SecondShutdownExactly | go/internal/server/watchhub.go:105-145 | after a shutdown and any run, the sessions from before it stay ended, and another shutdown changes nothing iff no session subscribed since is still open |
| WatchHub.WatchHub.ValidState | go/internal/server/watchhub.go:63-68 | a valid stored hub is in a state satisfying the protocol's invariant, so the theorems on runs apply to it |
| WatchHub.WatchHub.Publish | go/internal/server/watchhub.go:81-101 | the method performs the protocol's publish on the stored hub, whatever the order of the subscriber map; it sends on and closes open channels only |
| WatchHub.WatchHub.Subscribe | go/internal/server/watchhub.go:129-145 | a new open session with an empty buffer joins, and nothing else changes |
| WatchHub.WatchHub.Close | go/internal/server/watchhub.go:105-115 | the method performs the protocol's shutdown |
| WatchHub.WatchHub.CloseOne | go/internal/server/watchhub.go:184-192 | the method performs the protocol's close of one session |
| WatchHub.WatchSession.TrySend | go/internal/server/watchhub.go:91-99 | the non-blocking send appends iff fewer than 64 pokes are buffered, and requires an open channel |
| WatchHub.WatchSession.Deliver | go/internal/server/watchhub.go:87-100 | one subscriber's turn in a publish: skipped, buffered, or ended for falling behind |
| WatchHub.WatchSession.CloseChannel | go/internal/server/watchhub.go:196-201 | closing requires an open channel: it is never closed twice |
| WatchHub.WatchSession.EndWith | go/internal/server/watchhub.go:196-201 | the first end sets the reason and closes the channel; later ones do nothing |
| WatchHub.WatchSession.ReceivePoke | go/internal/server/watchhub.go:164-166 | a receive yields the oldest buffered poke, open or closed; on an empty buffer it reports the close iff the channel is closed, and blocks iff it is open |
| WatchStream.Stream | go/internal/server/watchstream.go:26-97 | who is admitted and with which error, from the token's expiry time on; every message of an admitted stream goes out with the session attached, and which are sent and how the stream ends is told from the turns' own fields; the session is detached on every way out; a stream ended by the hub has taken everything published for it and reports a reason |
| WatchStream.Serve | go/internal/server/watchstream.go:48-97 | a poke is sent iff it was taken in a turn that found it visible, with an unexpired token and a working transport; a heartbeat iff its tick's turn was unexpired and the transport worked; one message per such attempt, in order, each at a position where exactly the pokes logged so far have been taken; expiry and a failed send end the stream, and only they do of what an attempt meets |
| WatchStream.SentAsTurnsDecide | go/internal/server/watchstream.go:67-94 | that account of the messages follows from the loop's bookkeeping for every list of turns |
| WatchStream.TurnKeepsAccount | go/internal/server/watchstream.go:62-96 | one turn, whatever the others do first and whichever case is picked, keeps the account of messages, pokes taken and reason to end |
| WatchStream.OneTurn | go/internal/server/watchstream.go:62-96 | the select and its case, step by step: cancellation ends the stream, a closed and empty channel ends it with the session's reason, an open and empty one lets it go on, otherwise the oldest poke or a heartbeat is what it sets out to send |
| WatchStream.Handle | go/internal/server/watchstream.go:71-94 | expiry is tested first, then visibility, then the send; a failed lookup withholds the poke |
| WatchStream.ClosedMeansDrained | go/internal/server/watchstream.go:67-70 | a channel that reports closed has yielded every poke it ever accepted |
| WatchStream.EndHasReason | go/internal/server/watchhub.go:81-115 | a session not closed by its own handler was ended by the hub, with a reason |
| Cache.ReadAfterInvalidate | go/lib/cache/cache.go:62-102 | over every interleaving of any number of threads, a version committed before an invalidation was called is contained in what every Get called after its return yields, by any thread, the invalidating one included; the invalidation may be of the entry, of a key without one, or of all |
| Cache.BehaviourKeepsInv | go/lib/cache/cache.go:76-102 | locks have one owner, the pointer is written only under the lock, and every invalidation under way has achieved what its position promises, in every reachable state |
| Cache.StartInv | go/lib/cache/cache.go:31-43 | that holds initially whenever the clock is past the epoch by a lifetime |
| Cache.FreshStaysFresh | go/lib/cache/cache.go:62-102 | once nothing older than a version is in an entry or can still get in, no step changes that |
| Cache.FloorIsVersionAtCall | go/internal/server/metricscache.go:37-56 | the version an invalidation guarantees is the one committed when it was called |
| Cache.SingleRefresher | go/lib/cache/cache.go:81-91 | at most one thread runs the refresher of an entry |
| Cache.ServedYoung | go/lib/cache/cache.go:71-88 | a value served from the cache was stored less than the lifetime before its check, and is never the zero value |
| Cache.StoresAreSpaced | go/lib/cache/cache.go:81-102 | two stores with no invalidation between them are at least the lifetime apart |
| Cache.EntriesFixedDuringWalk | go/internal/server/metricscache.go:49-55 | while all entries are being invalidated no entry is added |
| Cache.UnfilledServedBeforeEpoch | go/lib/cache/cache.go:56-60 | with a clock before the epoch plus the lifetime, a first Get yields the zero value |
| Cache.UninterruptedRefresh | go/lib/cache/cache.go:76-102 | left alone, the protocol's Get on an expired entry stores what the refresher yields, stamped now, as the sequential class does |
| Cache.ServedWasFetchedRecently | go/lib/cache/cache.go:76-102 | over any sequence of reads and drops, a read is answered from the entry iff some read fetched its value less than the lifetime ago with no drop since, and asks the refresher otherwise |
| Cache.UninterruptedHit | go/lib/cache/cache.go:77-80 | left alone, a Get of a young entry returns it without a lock and without touching it |
| Cache.UninterruptedRecheck | go/lib/cache/cache.go:81-89 | so does one that finds the entry young once it has the lock |
| Cache.UninterruptedFailure | go/lib/cache/cache.go:90-94 | a failed refresh leaves the entry as it was and gives the lock back |
| Cache.InMemory.Get | go/lib/cache/cache.go:45-54 | an entry younger than the lifetime is returned and not touched; an older one is replaced by what the refresher yields, stamped now, or stays if the refresher fails |
| Cache.InMemory.Invalidate | go/lib/cache/cache.go:62-69 | the entry is empty again |
| Cache.KeyedCache.Get | go/internal/server/metricscache.go:60-73 | the same for the key's own entry, created empty on its first read; no other key is touched, and entries are never shared |
| Cache.KeyedCache.InvalidateEvent | go/internal/server/metricscache.go:37-44 | exactly that key's entry is emptied; a key never read stays absent |
| Cache.KeyedCache.InvalidateAll | go/internal/server/metricscache.go:49-55 | every entry is emptied and none is removed |
| RateLimit.PruningUnobservable | go/internal/server/ratelimit.go:197-206 | for every operation sequence over all keys, the limiter and one that never prunes give the same answers, decision and wait |
| RateLimit.RunsAgree | go/internal/server/ratelimit.go:139-165 | the bisimulation: both tables agree on every entry that still matters |
| RateLimit.StepKeepsSameLive | go/internal/server/ratelimit.go:109-174 | one operation keeps the agreement and is answered alike |
| RateLimit.ThroughputInFlight | go/internal/server/ratelimit.go:109-165 | with at most c admitted attempts on a key in flight at once and no success, failures recorded within a span are at most (max(1, maxFailures) + c - 1) times (span / min(lockout, reset window) + 1), whatever other keys do |
| RateLimit.ThroughputBound | go/internal/server/ratelimit.go:109-165 | failures recorded for one key within a span, each following an admission and with no success, are at most max(1, maxFailures) times (span / min(lockout, reset window) + 1), whatever other keys do |
| RateLimit.DisciplinedIsOneAtATime | go/internal/server/ratelimit.go:109-165 | failures that each directly follow an admission are the case of one attempt in flight |
| RateLimit.AllowDecides | go/internal/server/ratelimit.go:109-135 | a key is refused iff its lockout has not ended, or it has none, has not been idle too long, is at the threshold and its ideal backoff has not run; the wait is the rest of that time |
| RateLimit.AllowForgetsExactly | go/internal/server/ratelimit.go:118-128 | an Allow forgets the key iff its lockout has ended or it has been idle too long |
| RateLimit.FailureCountsExactly | go/internal/server/ratelimit.go:139-165 | a failure is one more in the streak or the first of a new one, and locks out at the ceiling |
| RateLimit.BackoffOverRuns | go/internal/server/ratelimit.go:109-165 | over every run short of a lockout, a key is refused iff its streak of failures, told from the operations alone, is at the threshold, no older than the reset window and less than its ideal backoff old |
| RateLimit.LockoutOverRuns | go/internal/server/ratelimit.go:139-165 | from a failure that reaches the ceiling until the lockout has run every Allow of the key is refused, whatever else happens short of a success |
| RateLimit.LockoutSurvivesExactly | go/internal/server/ratelimit.go:150-160 | a failure during a lockout never lifts it iff the lockout is at most the reset window plus one nanosecond |
| RateLimit.BackoffIsIdeal | go/internal/server/ratelimit.go:178-193 | the backoff is min(max, base * 2^(failures - threshold)) for all counts iff max <= base * 2^33 |
| RateLimit.IdealBackoffDoubles | go/internal/server/ratelimit.go:178-193 | the ideal backoff is nothing before the threshold, the base at it, and doubles up to the cap |
| RateLimit.BackoffMonotone | go/internal/server/ratelimit.go:178-193 | more failures never shorten the backoff, and it never exceeds its maximum |
| RateLimit.BackoffFitsInt64 | go/internal/server/ratelimit.go:183-189 | under the exponent guard no product leaves 63 bits iff base < 2^31 |
| RateLimit.WaitIsExact | go/internal/server/ratelimit.go:109-135 | after the reported wait the key is admitted; it is refused at every earlier instant iff it is locked out or its backoff is at most the reset window plus one nanosecond |
| RateLimit.DefaultPolicyIsSound | go/internal/server/ratelimit.go:70-81 | the production policy meets all these conditions |
| RateLimit.LoginRateLimiter.Allow | go/internal/server/ratelimit.go:109-135 | the answer and the whole new table are the rules', which `AllowDecides` and `AllowForgetsExactly` state |
| RateLimit.LoginRateLimiter.RecordFailure | go/internal/server/ratelimit.go:139-165 | the whole new table is the rules', including when pruning runs |
| RateLimit.LoginRateLimiter.RecordSuccess | go/internal/server/ratelimit.go:169-174 | exactly that key is forgotten |
| RateLimit.LoginRateLimiter.PruneLocked | go/internal/server/ratelimit.go:197-206 | exactly the entries that are locked out or not idle too long are kept, unchanged |
| IncidentEdit.UpdateClosed | go/internal/incident/incident.go:402-851 | an edit succeeds iff its fields, types, reports and links are acceptable, each tested on the store before the edit, and then every table is given outright |
| IncidentEdit.UpdateRefusal | go/internal/incident/incident.go:484-781 | which error is returned, in the order of the tests |
| IncidentEdit.ListsEqualRequested | go/internal/incident/incident.go:599-822 | after a successful edit each list present equals the requested set (visits: the requested ones that exist) and each absent one is unchanged |
| IncidentEdit.TypesAfterAre | go/internal/incident/incident.go:599-634 | the types table after the edit: the requested set here, every other incident's as before |
| IncidentEdit.ReferencesAfterAre | go/internal/incident/incident.go:636-723 | the reports, or visits, attached after the edit: the requested ones that exist |
| IncidentEdit.LinksAfterAre | go/internal/incident/incident.go:725-822 | the links after the edit: the requested set here, the mirrored link there, all others as before |
| IncidentEdit.TablesUnchangedExactly | go/internal/incident/incident.go:599-822 | the four tables stay as they are iff every list present agrees with the stored one |
| IncidentEdit.OthersKeepTheirs | go/internal/incident/incident.go:599-822 | other incidents keep row, types and links among themselves, and link back to this one exactly as it links to them |
| IncidentEdit.OthersKeepTheirReferences | go/internal/incident/incident.go:636-723 | a report or visit changes its incident only if asked for, or if it was attached here and is not asked for |
| IncidentEdit.RefusedLists | go/internal/incident/incident.go:599-781 | a link to itself, and a new link or type named twice, are refused |
| IncidentEdit.NoChangesExactly | go/internal/incident/incident.go:477-597 | no change line is written iff the row stays the same and every list agrees with the stored one |
| IncidentEdit.ChangesAreHonest | go/internal/incident/incident.go:477-829 | when the visits exist, the change entry is written iff something besides the journal changes |
| IncidentEdit.Again | go/internal/incident/incident.go:402-851 | repeating an accepted request is accepted and changes only the journal |
| IncidentEdit.IdempotentExactly | go/internal/incident/incident.go:463-829 | repeating a request without entries leaves the store as it is iff every visit it names exists |
| IncidentEdit.RequestsAreIdempotent | go/internal/incident/connect.go:1585-1631 | repeating any request the server can receive (none names visits) without entries leaves the store exactly as it is |
| IncidentEdit.MissingVisitIsReportedAgain | go/internal/incident/incident.go:686-705 | the edit itself, given a payload naming a missing visit, which no caller builds, changes the store when repeated |
| IncidentEdit.JournalOnlyAppends | go/internal/incident/incident.go:384-400 | a payload classed as journal-only is accepted from any caller and only writes its entries |
| IncidentEdit.WrittenAreTheTexts | go/internal/incident/incident.go:831-851 | each nonempty text is written as often as it was sent |
| IncidentEdit.OnlyTextsAreWritten | go/internal/incident/incident.go:831-851 | nothing else is written by that loop |
| IncidentEdit.UpdateKeepsInv | go/internal/incident/incident.go:506-597 | an edit keeps links symmetric and irreflexive, references real, and the closing time set exactly while closed |
| IncidentLists.WithTypesClosed | go/internal/incident/incident.go:599-634 | the type loops fail iff a new type is unknown or named twice, and otherwise leave exactly the requested types |
| IncidentLists.WithReportsClosed | go/internal/incident/incident.go:636-685 | the report loops fail iff a requested report does not exist, and otherwise leave exactly those attached, with one entry per change on each report |
| IncidentLists.WithVisitsClosed | go/internal/incident/incident.go:687-723 | the visit loops leave exactly the requested existing visits attached |
| IncidentLists.WithLinksClosed | go/internal/incident/incident.go:725-822 | the link loops fail iff a new link is to itself, to nothing or named twice, and otherwise leave exactly the requested links, both ways |
| IncidentLists.SubtractIn | go/internal/incident/incident.go:892-900 | sliceSubtract keeps exactly the elements not in the other list |
| IncidentRuns.ReachableInv | go/internal/incident/connect.go:345-408 | over every run of creations, edits, report and visit writes, area merges and changes of reference data: links symmetric, references real, closed iff a closing time, numbers without a gap |
| IncidentRuns.StepKeepsInv | go/internal/incident/connect.go:345-408 | every operation keeps this, whether it succeeds or is refused |
| IncidentRuns.RunPreserves | go/internal/incident/incident.go:824-851 | over every run no incident, report or journal entry disappears, and an incident's creator and creation time never change |
| IncidentRuns.CreateIncidentAnswer | go/internal/incident/connect.go:376-399 | creation takes an unused number, never refuses the creator for privacy, and applies the request to the default row, or leaves that row when the request is refused |
| IncidentRuns.BareRowIsLeft | go/internal/incident/connect.go:376-402 | a first request with an unknown outcome is refused and the incident is there all the same |
| IncidentRuns.NextExists | go/store/queries.sql:350-357 | there is a next number |
| IncidentRuns.NextIsUnique | go/store/queries.sql:350-357 | and only one |
| IncidentRuns.BothEditorsAgree | go/internal/incident/connect.go:1414-1467 | linking or detaching a report from its own editor leaves the same table as editing the incident's list |
| IncidentRuns.LinkSurvivesExactly | go/internal/incident/connect.go:1144-1194 | the requested link is in place after a report edit iff it was not to change or nothing else was asked |
| IncidentRuns.LostLinkIsOnTheTimelines | go/internal/incident/connect.go:1144-1194 | when it is lost, both timelines record an attachment the report does not have |
| IncidentRuns.ReportRefusedExactly | go/internal/incident/connect.go:1116-1173 | whether and how an edit of an existing report is refused, from the request, the rights and the row |
| IncidentRuns.RefusalLeavesNothingExactly | go/internal/incident/connect.go:1126-1173 | a refused edit leaves the store alone iff the caller has no right to the report or its link part changes nothing or cannot be done; otherwise the link has moved, with its entries |
| IncidentEffects.EditStoresRequest | go/internal/incident/incident.go:484-593 | after an accepted edit every field is told from the stored row and the request: an absent field stays, a present one is that field's own value, "" is null, the booth is cut at 32, outcome 0 clears, the slug is trimmed, closing sets the time and reopening clears it |
| IncidentEffects.RequestDeterminesRow | go/internal/incident/incident.go:484-593 | that leaves no other row possible |
| IncidentEffects.FieldsRefusedExactly | go/internal/incident/incident.go:484-593 | which field changes are refused, in order: privacy by anyone but an admin or the creator, an unknown outcome, an area of another event |
| IncidentEffects.NewIncidentStoresRequest | go/internal/incident/connect.go:376-399 | a new incident has priority 3, is open and public, and has what the request says beyond that, or nothing more if refused |
| IncidentEffects.LinesAreDue | go/internal/incident/incident.go:477-822 | the change entry has a line for exactly the fields that changed, with their new values, and for what each list gained and lost |
| IncidentEffects.EditWritesEntries | go/internal/incident/incident.go:599-851 | the journal gains exactly one entry on each report attached or detached and each incident linked or unlinked, the change entry if there are lines, and the nonempty texts |
| IncidentEffects.FirstBadLinkDecides | go/internal/incident/incident.go:749-781 | the first link that cannot be made decides the refusal, and whether it is the way there or the way back |
| IncidentEffects.JournalOnlyExactly | go/internal/incident/incident.go:384-400 | a payload is journal-only iff it has entries and everything else in it is absent |
| IncidentEffects.ReportEditLinks | go/internal/incident/connect.go:1144-1194 | after an accepted report edit the link is the one asked for if nothing else was, and as before otherwise |
| IncidentEffects.ReportEditWritesEntries | go/internal/incident/connect.go:1144-1211 | it writes exactly the entries of a link that moves, the summary's entry, and the nonempty texts |
| IncidentEffects.NewReportWritesEntries | go/internal/incident/connect.go:997-1075 | a new report is refused iff its incident does not exist, and otherwise has that link and exactly these entries |
| IncidentService.IncidentService.UpdateIncident | go/internal/incident/incident.go:402-872 | the step-by-step edit commits exactly the specified store, or returns the specified error and leaves the store alone |
| IncidentService.ReconcileFields | go/internal/incident/incident.go:484-593 | the field tests and assignments store each present field's own value and leave the others, with one line per changed field, or return the first error |
| IncidentService.EditStatus | go/internal/incident/incident.go:484-514 | privacy is refused to anyone but an admin or the creator; closing sets the time and reopening clears it |
| IncidentService.EditOutcome | go/internal/incident/incident.go:518-540 | 0 clears, an unknown outcome is refused unless it is the stored one |
| IncidentService.EditTexts | go/internal/incident/incident.go:541-568 | start, summary, description and booth each take their own submitted value; empty is null and the booth is cut at 32 |
| IncidentService.EditArea | go/internal/incident/incident.go:569-593 | a blank slug clears, an area of another event is refused unless it is the stored one |
| IncidentService.ReconcileTypes | go/internal/incident/incident.go:599-634 | the loops refine the specified type list and report exactly the differences |
| IncidentService.ReconcileReports | go/internal/incident/incident.go:636-685 | the loops refine the specified report table and journal, stopping at the first failure |
| IncidentService.ReconcileVisits | go/internal/incident/incident.go:687-723 | the loops refine the specified visit table |
| IncidentService.ReconcileLinks | go/internal/incident/incident.go:725-822 | the loops refine the specified symmetric links and mirrored entries, stopping at the first failure |
| IncidentService.WriteEntries | go/internal/incident/incident.go:831-851 | the loop writes the nonempty texts and skips the others |
| IncidentService.SliceSubtract | go/internal/incident/incident.go:892-900 | the loop keeps order and repetitions of the elements not in the other list |
| IncidentService.NextNumber | go/store/queries.sql:350-357 | the number after the largest one, and 1 for the first |
| IncidentService.IncidentService.CreateNewIncident | go/internal/incident/connect.go:373-408 | number, bare row, edit, in this order, with the specified outcome |
| IncidentService.IncidentService.ReconcileLink | go/internal/incident/connect.go:1414-1467 | only a link that differs is written, with one entry on each timeline concerned |
| IncidentService.IncidentService.EditReport | go/internal/incident/connect.go:1116-1211 | the right to the report first, then the link, then the rights to the other parts, then the row as read at the start and the entries |
| IncidentAreas.MergeIsMerge | go/internal/area/connect.go:276-290 | a merge of the area service is the merge of the incident runs: both views of the incidents' places still agree |
| IncidentAreas.EditPlaces | go/internal/incident/incident.go:569-593 | an accepted edit places the incident as the area service's model says, or leaves its place alone |
| Area.RunKeepsSound | go/internal/area/connect.go:187-339 | over every run from any sound event slugs are unique, parents exist in the event, parent links are acyclic and every incident's area exists |
| Area.SoundForestHasNoCycle | go/internal/area/area.go:45-62 | then no area is its own ancestor and every climb ends at a top-level area |
| Area.CreateKeepsSound | go/internal/area/connect.go:187-227 | a created area keeps the forest sound under a new, well-formed slug |
| Area.UpdateKeepsSound | go/internal/area/connect.go:295-339 | moving and renaming keep it sound |
| Area.ApproveKeepsSound | go/internal/area/connect.go:231-244 | approval keeps it sound |
| Area.PlaceKeepsSound | go/internal/incident/incident.go:569-593 | placing an incident keeps it sound |
| Area.MergeMovesExactly | go/internal/area/connect.go:250-291 | a merge keeps it sound, moves exactly the duplicate's incidents to the canonical area, keeps their number, and removes exactly the duplicate |
| Area.UpdateKeepsOneLevelExactly | go/internal/area/area.go:45-62 | an update keeps nesting one level deep iff it does not give a parent to an area with children |
| Area.StepKeepsOneLevelExactly | go/internal/area/connect.go:187-339 | any operation keeps nesting one level deep iff it is not an accepted update giving a parent to an area with children |
| Area.RunKeepsOneLevelExactly | go/internal/area/area.go:45-62 | a run stays at one level throughout iff it starts there and none of its steps is such an update |
| Area.NestingCanDeepen | go/internal/area/connect.go:295-339 | a sound one-level forest and an accepted update that makes two levels |
| AreaEffects.CreateStoresRequest | go/internal/area/connect.go:187-227 | a new area has a free slug made of its name, the trimmed name, the parent and order asked for, and is approved unless it is a proposal; nothing else changes |
| AreaEffects.CreateRefusedExactly | go/internal/area/connect.go:187-227 | when creation is refused, and with which error |
| AreaEffects.UpdateStoresRequest | go/internal/area/connect.go:295-339 | an update changes one row, and in it only the fields present, to their own values |
| AreaEffects.UpdateRefusedExactly | go/internal/area/connect.go:295-339 | when an update is refused, and with which error |
| AreaEffects.ApproveApproves | go/internal/area/connect.go:231-244 | approval approves that row, keeps its proposer, and changes nothing else |
| AreaEffects.MergeRefusedExactly | go/internal/area/connect.go:250-275 | which merges are refused, in order |
| AreaEffects.ParentRefusedExactly | go/internal/area/area.go:45-62 | a parent is refused iff it is the area itself, does not exist, or has a parent |
| AreaEffects.PlaceStoresRequest | go/internal/incident/incident.go:569-593 | placing stores the trimmed slug or clears the place, and moves no other incident |
| AreaEffects.TrimTakesSpaces | go/internal/area/connect.go:187-227 | trimming takes only spaces, off the two ends |
| AreaEffects.TrimLeavesNoSpace | go/internal/area/connect.go:187-227 | and leaves none there |
| AreaSeed.CopySucceedsExactly | go/store/areas.go:41-79 | copying an event's areas succeeds iff every nested row's parent is top-level or read earlier, and then yields the top-level rows followed by the others |
| AreaSeed.CopyIsSound | go/store/areas.go:32-79 | a copy has exactly the rows of the original and is as sound, and at one level if that was |
| AreaSeed.OneLevelCopies | go/store/areas.go:35-40 | at one level of nesting the copy always succeeds |
| AreaSeed.NestedTwiceCannotBeCopied | go/store/areas.go:35-40 | a list of areas nested two levels deep whose copy fails |
| AreaSeed.NestedTwiceIsSound | go/store/areas.go:35-40 | that list is a sound forest |
| AreaSeed.FlatIsSound | go/store/areas.go:83-99 | a flat list with distinct slugs starts an event soundly and at one level |
| AreaSeed.CopyAreas | go/store/areas.go:41-79 | the two passes, insert by insert, stop at the first failure and otherwise make that copy |
| AreaSeed.CreateEventRefusedExactly | go/internal/event/event.go:108-138 | creating an event is refused iff it is no group and inherits areas whose copy fails; the event is there all the same, without areas; every event stays sound |
| Area.Service.CreateArea | go/internal/area/connect.go:187-227 | the method's new event and answer are the specified ones |
| Area.Service.UpdateArea | go/internal/area/connect.go:295-339 | the method's new event is the specified one, or unchanged with the specified error |
| Area.Service.MarkAreaDuplicate | go/internal/area/connect.go:250-291 | the whole merge is in the store and the answer is success iff the request passes the tests and one of four attempts is reached and commits; any error means none of it |
| Tx.RunInTx | go/store/tx.go:43-81 | at most four attempts; every earlier one failed transiently; success iff some attempt is reached and commits, and then exactly the last one's work is in the store; an error means none, and why it stopped |
| Tx.WrappingIsTransparent | go/store/tx.go:24-41 | wrapping an error any number of times does not change whether it is retried |
| Tx.RetriesExactly | go/store/tx.go:24-30 | retried are exactly a deadlock (1213) and a lock wait timeout (1205), under any wrapping |
| Tx.AttemptFailsExactly | go/store/tx.go:43-81 | an attempt fails with the error of its begin, else of its body, else of its commit |
| Slug.SlugifyJoinsWords | go/internal/area/area.go:91-103 | a slug is the name's lowercase alphanumeric runs joined by single hyphens, or "area", for every name and every lowercasing |
| Slug.WordsHoldSlugChars | go/internal/area/area.go:91-103 | those runs hold exactly the slug characters, in order |
| Slug.WordsAreTheRuns | go/internal/area/area.go:91-103 | and there is one word for each maximal run |
| Slug.SlugifyFixed | go/internal/area/area.go:96-103 | a slug is its own slug |
| Slug.FindUniqueSlug | go/internal/area/area.go:107-118 | the search terminates with the first free candidate |
| Slug.SuffixBound | go/internal/area/area.go:107-118 | a suffix reached is at most one more than the number of slugs taken, by pigeonhole |
| Slug.CandidateInjective | go/internal/area/area.go:112-115 | different suffixes give different slugs |
| Slug.CandidateSuffix | go/internal/area/area.go:112-115 | suffix i is a hyphen and the decimal numeral of i without leading zero |
| Slug.UniqueSlug | go/internal/area/area.go:107-118 | the result is not taken, and is the slug itself or the smallest free suffix |
| Slug.UniqueSlugIsSlug | go/internal/area/area.go:107-118 | the unique slug is well-formed again |
| Claim.PositionsRoundTrip | go/lib/authz/claim.go:100-129 | writing positions and reading them back yields the strictly ascending list of the distinct ones, for every list, empty and zero included |
| Claim.AscendingListUnique | go/lib/authz/claim.go:45-56 | there is only one such list |
| Claim.ClaimStringRoundTrip | go/lib/authz/claim.go:100-129 | a readable claim is rewritten unchanged iff it has no padding |
| Claim.PositionsPanicExactly | go/lib/authz/claim.go:33-56 | reading a claim panics iff it is a minus sign and a positive numeral |
| Claim.UnmarshalMarshal | go/lib/authz/claim.go:33-68 | base-62 text reads back as the number, zero included |
| Claim.IntsToBitSet | go/lib/authz/claim.go:58-64 | the number has exactly the listed bits set; a negative entry panics |
| Claim.BitSetToInts | go/lib/authz/claim.go:45-56 | the list of set bits, ascending; a negative number panics |
| Claim.BitsDetermineNumber | go/lib/authz/claim.go:45-64 | a number is determined by its bits |
| Numeral.TextParse | go/lib/authz/claim.go:33-68 | reading a numeral and writing it gives it back iff it has no padding |
| Numeral.TextInjective | go/internal/area/area.go:112-115 | numerals of different numbers differ |
| Numeral.DigitsInOrder | go/lib/authz/claim.go:14-14 | the digits are 0-9, then a-z, then A-Z, in this order |
| Numeral.DigitValueExactly | go/lib/authz/claim.go:33-43 | and read back as their places in it |
| Numeral.ParseIsPlaceValue | go/lib/authz/claim.go:33-43 | a numeral reads as the sum of its digits times the powers of the base |
| Metrics.BuildMetrics | go/internal/metrics/metrics.go:27-175 | the one pass and the bucket loops produce the dashboard `Shows` describes: every count, the ascending days, the follow-ups and the average |
| Metrics.ShowsDetermines | go/internal/metrics/metrics.go:27-175 | the incidents determine every part of the dashboard |
| Metrics.Pass | go/internal/metrics/metrics.go:41-81 | each counter map counts its key over all incidents and has no empty entry; the totals, the sum of closing times and the follow-ups are those of all incidents |
| Metrics.Count | go/internal/metrics/metrics.go:47-81 | the body of the loop counts one incident |
| Metrics.SortedBuckets | go/internal/metrics/metrics.go:157-162 | the days of the counter map, each once, strictly ascending |
| Metrics.CountsSumToTotal | go/internal/metrics/metrics.go:82-105 | priorities and days sum to the total, states do so iff the state list covers every incident, and open plus closed is the total |
| Metrics.PrioritiesShown | go/internal/metrics/metrics.go:92-105 | the priority buckets count the incidents with priority at least 4, exactly 3, and at most 2 |
| Metrics.StatesShown | go/internal/metrics/metrics.go:84-93 | the state buckets count the open and the closed incidents |
| Metrics.TotalsShown | go/internal/metrics/metrics.go:36-63 | the totals count all incidents, the closed ones and those with a closing time |
| Metrics.DaysShown | go/internal/metrics/metrics.go:53-58 | a day's bucket counts the incidents created on it |
| Metrics.BeforeExactly | go/internal/metrics/metrics.go:162-162 | days are ordered by the first character that differs |
| Metrics.FollowUpsExactly | go/internal/metrics/metrics.go:65-80 | listed are exactly the incidents with the follow-up outcome that are not closed, a private one without its summary |
| Metrics.FollowUpsCount | go/internal/metrics/metrics.go:65-80 | each of them once |
| Metrics.AverageWithin | go/internal/metrics/metrics.go:60-63 | the average lies between the shortest and the longest time from creation to closing, and is absent iff nothing was closed |
| Metrics.TotalIsWholeExactly | go/internal/metrics/metrics.go:82-105 | buckets with different keys sum to the whole iff they leave nothing out |
| Metrics.PrivateSummariesStayPrivate | go/internal/metrics/metrics.go:65-80 | incidents that differ only in private summaries have the same dashboard |
| Metrics.DashboardOfReachableStore | go/internal/metrics/metrics.go:41-105 | on every store a run reaches, the three breakdowns sum to the event's number of incidents, and closed equals the number with a closing time |
| Expo.TicketsConserved | go/lib/push/expo.go:166-217 | over every run, offered tickets with an id = pending + taken + dropped, none lost or doubled, and at most 4096 are pending |
| Expo.FirstInFirstOut | go/lib/push/expo.go:166-217 | tickets leave in the order they were accepted, whatever times the sweeps read; only the stamps made under the lock are ordered |
| Expo.FilterPartition | go/lib/push/expo.go:203-217 | taking splits the queue: every ticket is on exactly one side |
| Expo.SweepTakesTheAged | go/lib/push/expo.go:203-217 | a sweep takes exactly the tickets at least the delay old |
| Expo.TakenWereAged | go/lib/push/expo.go:203-217 | so over every run a taken ticket was that old for the sweep that took it |
| Expo.PrunesOnlyTaken | go/lib/push/expo.go:231-270 | only devices of taken tickets are pruned, if the service answers about ids it was asked |
| Expo.PrunedExactly | go/lib/push/expo.go:253-269 | pruned are exactly the devices for which a batch's reply has an error receipt saying DeviceNotRegistered |
| Expo.EndpointIsTickets | go/lib/push/expo.go:237-256 | a known receipt id maps to a device of its batch, an unknown one to the empty endpoint |
| Expo.EndpointIsLast | go/lib/push/expo.go:237-242 | of tickets with the same id in a batch, the last one's device counts |
| Expo.ExpoPushSender.QueueReceipt | go/lib/push/expo.go:166-181 | an empty id is ignored, a full queue counts a drop, anything else is appended |
| Expo.ExpoPushSender.TakeDue | go/lib/push/expo.go:203-217 | exactly the tickets at least the delay old are returned and the others kept, both in order |
| Expo.ExpoPushSender.CheckDueReceipts | go/lib/push/expo.go:231-270 | every due ticket is in exactly one batch, in order, and exactly the devices reported dead are pruned |
| Expo.FetchInBatches | go/lib/push/expo.go:231-270 | batches concatenate to the due tickets, each of 1 to 100 and all but the last full |

## Left out

- WatchHub.WatchHub.CloseOne: a nil hub receiver, which every method of the program tolerates, is not modelled.
- WatchStream.Stream: the handler's session is followed in the protocol, not through the class; the other goroutines are any steps that leave its session's receives and close to it, and fairness of the select is not modelled. A message's position is the latest hub step it is known to follow.
- Cache.ReadAfterInvalidate: the panic on an uninitialized cache is not modelled, and a panicking refresher is not.
- Cache.InMemory.Get: sequential; the interleavings are in the protocol.
- RateLimit.BackoffIsIdeal: the program multiplies in floating point before truncating to nanoseconds; the model multiplies integers.
- RateLimit.BackoffFitsInt64: bases of 2^31 nanoseconds and more, where the product would wrap around, are only shown not to fit.
- Incident.Update: reads before the transaction and concurrent edits are not interleaved; requests come one at a time, as the code takes no lock.
- IncidentService.IncidentService.UpdateIncident: the writes of mentions and notifications that go with an entry are not modelled; journal entries form a bag without order or time, a list in a change line is a set, and the wording of the lines is data.
- IncidentService.EditTexts: the booth is cut at 32 characters, where the program cuts at 32 bytes; column widths and the database's case-insensitive comparison are not modelled.
- IncidentRuns.StepKeepsInv: writes to visits and reference data are any write the foreign keys allow.
- AreaSeed.CopyAreas: the canonical names are not modelled, nor that areas are later added to a group event, which is never a source.
- IncidentRuns.LinkSurvivesExactly: a report's summary text is not stored, and the caller's rights are three flags.
- Metrics.BuildMetrics: the category, type, area and role charts copy query rows and are left out; floating-point rounding of the average is not modelled and the calendar day is a parameter.
- Slug.SlugifyFixed: lowercasing maps one character to one character and leaves slug characters alone.
- Claim.IntsToBitSet: positions are unbounded; the program's conversion to the platform's int is not modelled.
- Expo.ExpoPushSender.CheckDueReceipts: the HTTP exchange is a function from ids to an optional reply.
- Mentions, notifications, push delivery, people involved in incidents, attachments and strikes of journal entries.
- Permissions, sessions, HTTP and RPC plumbing, JSON and SQL text, and configuration.
- Errors of reads and commits of the incident store: they return early and leave the store alone.
- The Outcomes and Crews caches, which repeat the two shapes modelled.
