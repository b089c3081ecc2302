# ParishKit: a verified model of its decision logic

ParishKit copies one system of record (ParishSoft) outward to mailing lists, groups and calendars. This
project models the parts of it that decide, in Dafny, and proves what they promise over every input,
every server answer and every interleaving. Check it with `dafny verify dfyconfig.toml`.

- **Strict pagination.** `Pagination` is the reader as functions on values and `PagedReader` the same
  reader in its imperative form (a mutable accumulator and a page loop), proved equal to it.
  `PaginationSoundness` says what a successful read proves against an arbitrary server;
  `PaginationDialects` and `PaginationEnvelope` say that honest servers, in each paging dialect, are read
  completely, and at which exact number of fetches.
- **Runner lock.** `Lock` is the single-instance lock as interleaved steps of any number of processes,
  with a two-step release, failures and crashes.
- **Helper process.** `Frames` is the reply printer and the incremental reader, `HelperExchange` one
  request over arbitrarily chunked pipes, `HelperSessions` whole sessions with timeouts, lost ownership,
  rebinding and restarts.
- **Reconcilers.** `ConstantContact` and `ConstantContactSync`, `GoogleGroups` and `GoogleGroupSync`: diff,
  apply, converge, and find nothing left to do. `UnsubscribedReport` is the persistent report state.
- **Reservations.** `Reservations` is the greedy first-created-wins scheduler.
- **Records and configuration.** `ParishRecords` links and prunes the record graph in place,
  `Organizations` keeps one organization's records, `EmailFields` splits address fields, `GraphCopy`
  copies a cyclic graph, `StrictYaml` bounds alias expansion, `ParseCache` is the content-hashed cache.

`Results`, `Lists` and `Arithmetic` hold optional values, outcomes, comprehensions, stable sorting and minima.

Exceptions are result datatypes. Instants are integers; the reservation scheduler counts microseconds.
External services, other processes and clocks are explicit state that any step may change. Code that
updates objects or lists in loops is a class or a method with a loop, proved against a function on values;
the theorems are about those functions. Where several processes or threads interleave (the lock, the
helper sessions, the report state, the parse cache) the model is a state machine over their atomic steps,
and the theorems quantify over all runs.

Five properties one might expect are false of the code. Each has a lemma with the failing input or run,
and a lemma with the exact condition:

- A configuration that removes stale locks does not exclude a second runner, because a stale lock can be
  removed between its owner's token check and its unlink (`Lock.ExclusionCanFail`; exactly such
  configurations, by `Lock.ExclusionIffNoRemoval`, and from every such state, by
  `Lock.UncleanRemovalBreaksExclusion`; otherwise `Lock.RecoveryIsSafe`).
- A crash between sending a report and recording it can repeat the mail
  (`UnsubscribedReport.CrashCanRepeat`; exactly when `UnsubscribedReport.CrashRepeatsMail` says; without
  such a crash `UnsubscribedReport.SentAtMostOnce`).
- A workgroup or ministry row can outlive a member removed with its family (`ParishRecords.RowCanDangle`):
  exactly when the row itself names no removed family, or none at all, by
  `ParishRecords.DanglingIffMisattributed`.
- A contact whose list ids name a list twice stays on it after one unsubscription
  (`ConstantContactSync.RepeatedListSurvives`; exactly then, by `ConstantContactSync.SecondRunIsIdle`).
- A filtered contact list served from the cache shrinks again when one of its contacts is of a Member not
  kept in this load (`Organizations.CachedContactsCanShrink`; exactly then, by
  `Organizations.RefilterIsIdentity`).

The documentation of `reservation_decisions` says that declined events contribute to conflict detection;
the code leaves them out, and the model follows the code.

## Model

| member | source | states |
|---|---|---|
| `PaginationSoundness.ReadIsSound` | src/parishkit/parishsoft_pagination.py:202-272 | Whatever the server answers: at most `maxPages` fetches; a success saw only whole pages of records, lost none of them, is within the row bound, has pairwise distinct identities, only rows sent in answer to a position it asked for, and, under a total-and-ordinal contract, ordinals without a gap from 0 or 1 and exactly the number of rows every row declares |
| `PaginationSoundness.SuccessIsWhole` | src/parishkit/parishsoft_pagination.py:122-272 | After a success every answer was a whole page of records (the page of that number, size and total in an envelope), every record is among the rows unless the second probe answer was the first moved on by one row, and a read without envelopes ended at an empty page |
| `PaginationSoundness.PositionsAsked` | src/parishkit/parishsoft_pagination.py:160-272 | The positions asked are 1, 2, 3 and so on, or 0, 1 and then pages from 2, or 0, 1 and then offsets that advance by exactly the rows answered |
| `PaginationSoundness.RowVerdict` | src/parishkit/parishsoft_pagination.py:69-113 | Exactly which rows are taken, and which refusals say that the collection moved |
| `PaginationSoundness.ArgumentsAreChecked` | src/parishkit/parishsoft_pagination.py:202-232 | Arguments out of range are refused before any request, and others always lead to one |
| `PaginationSoundness.TotalsMustAgree` | src/parishkit/parishsoft_pagination.py:253-272 | A page in order that declares another total ends the read as a shifted scan |
| `PaginationSoundness.FetchFailureEndsRead` | src/parishkit/parishsoft_pagination.py:202-272 | A fetch that raises ends the read with its own failure, which nothing else ends in |
| `PaginationSoundness.AddPageKeepsCoherent` | src/parishkit/parishsoft_pagination.py:69-113 | Every accepted page keeps the accumulator's invariant, only appends rows, counts every received row and stays within the row bound |
| `PaginationSoundness.ProbeKeeps` | src/parishkit/parishsoft_pagination.py:160-199 | Whatever the two probe answers are, the probe keeps the invariant and adds only rows of those answers |
| `PaginationSoundness.ScanKeeps` | src/parishkit/parishsoft_pagination.py:253-272 | The page loop keeps the invariant from any coherent state, against any server, holding only rows sent for the positions asked |
| `PaginationDialects.DialectsComplete` | src/parishkit/parishsoft_pagination.py:160-272 | For every fixed list and each of the four dialects, a probing read returns exactly that list in order after exactly `Cost` fetches if the page bound admits them, and otherwise refuses; `Cost` is at most ceil(n/size) + 2 |
| `PaginationDialects.ProbeResolves` | src/parishkit/parishsoft_pagination.py:160-199 | The probe picks a position and step that continue exactly after the rows it added, in every dialect |
| `PaginationDialects.ScanCompletes` | src/parishkit/parishsoft_pagination.py:253-272 | From any prefix already read the loop reads exactly the rest |
| `PaginationDialects.PlainReadCompletes` | src/parishkit/parishsoft_pagination.py:202-272 | Without a probe, a one-based server is read completely in ceil(n/size) + 1 fetches, or refused at the page bound |
| `PaginationDialects.PagesIsCeiling` | src/parishkit/parishsoft_pagination.py:131-157 | The envelope's page arithmetic is the number of pages a listing really has |
| `PaginationEnvelope.EnvelopeReadIsExact` | src/parishkit/parishsoft_pagination.py:131-157 | A successful envelope read made exactly max(1, ceil(total/size)) requests, received the one total all pages declared, and returns the pages' rows in order without exact same-page repeats |
| `PaginationEnvelope.EnvelopeReadCompletes` | src/parishkit/parishsoft_pagination.py:202-272 | An honest envelope server is read completely and in order in exactly that many requests, or refused at the page bound |
| `PaginationEnvelope.AddPageDedups` | src/parishkit/parishsoft_pagination.py:69-113 | An accepted page contributes its rows in order, dropping only later exact repeats |
| `PagedReader.Collection.NoteTotal` | src/parishkit/parishsoft_pagination.py:69-113 | The embedded-total step updates the accumulator as the value-level check says, or raises the same failure |
| `PagedReader.Collection.NoteOrdinal` | src/parishkit/parishsoft_pagination.py:69-113 | The embedded-ordinal step, likewise |
| `PagedReader.Collection.AddOne` | src/parishkit/parishsoft_pagination.py:69-113 | One row of a page, with the rows of that page held so far |
| `PagedReader.Collection.Add` | src/parishkit/parishsoft_pagination.py:69-113 | The loop over a page leaves the whole accumulator as the value-level page step says |
| `PagedReader.Collection.Finish` | src/parishkit/parishsoft_pagination.py:115-119 | Rows are handed over only if the expected total was received |
| `PagedReader.Resolve` | src/parishkit/parishsoft_pagination.py:160-199 | The imperative probe computes the value-level plan and the accumulator it leaves |
| `PagedReader.TurnPage` | src/parishkit/parishsoft_pagination.py:253-272 | One page of the loop, envelope or array, changes the accumulator as the value-level turn says |
| `PagedReader.ReadPages` | src/parishkit/parishsoft_pagination.py:202-272 | The imperative reader returns what the value-level reader returns and asks exactly the same positions, for every server and contract |
| `PagedReader.ScanPages` | src/parishkit/parishsoft_pagination.py:253-272 | The loop, from any accumulator and position, likewise |
| `Lock.MutualExclusion` | src/parishkit/pk_cron_runner.py:455-543 | In every interleaving with crashes and a two-step release in which no lock was recovered, at most one runner is between acquire and release; recovery never happens when staleness is off or the action is not to remove |
| `Lock.RecoveryIsSafe` | src/parishkit/pk_cron_runner.py:506-615 | If no lock is removed in the middle of its owner's release, at most one holder was never displaced, a displaced one had aged past `stale_after`, and release only removes the runner's own lock |
| `Lock.UncleanRemovalBreaksExclusion` | src/parishkit/pk_cron_runner.py:523-582 | From any reachable state, earlier such removals included, with a removal about to hit a lock in mid-release, some continuation has two undisplaced holders: the exclusion above is exact |
| `Lock.ExclusionCanFail` | src/parishkit/pk_cron_runner.py:523-582 | For every configuration that removes stale locks, and every age past `stale_after`, a run with two undisplaced holders |
| `Lock.ExclusionIffNoRemoval` | src/parishkit/pk_cron_runner.py:421-615 | No interleaving at all has two undisplaced holders if and only if stale locks are never removed: staleness is off or the action is not to remove |
| `Lock.OrphanBlocksForever` | src/parishkit/pk_cron_runner.py:486-504 | A crash before the metadata is written blocks every later runner for good, whatever `stale_after` is |
| `Lock.GuardIsGivenBack` | src/parishkit/pk_cron_runner.py:506-521 | In every reachable state the guard is held by a runner in its guarded section, which alone gives it back within eight steps |
| `Lock.FreeLockIsAcquired` | src/parishkit/pk_cron_runner.py:455-504 | From any such state without a lock file, a new runner acquires and owns the lock |
| `Lock.ActiveLockRefuses` | src/parishkit/pk_cron_runner.py:556-615 | From any such state, an incomplete, fresh or protected lock is left alone: a new runner is refused and the guard is free again |
| `Lock.StaleLockIsRecovered` | src/parishkit/pk_cron_runner.py:556-615 | From any reachable state with nobody guarded, a complete, stale lock that is to be removed is recovered by a new runner, which acquires |
| `Lock.ReleaseRemovesOwn` | src/parishkit/pk_cron_runner.py:523-543 | A release removes the runner's own lock, survives a failing unlink, and leaves any other file |
| `Lock.FailedWriteCleansUp` | src/parishkit/pk_cron_runner.py:455-504 | A runner that cannot write its metadata takes its file away and gives the guard back |
| `Lock.CrashesAreCovered` | src/parishkit/pk_cron_runner.py:506-521 | A runner may die anywhere once it has begun, which frees the guard and leaves the file |
| `Lock.FailuresAreCovered` | src/parishkit/pk_cron_runner.py:455-523 | A failure before the file exists leaves file and guard as they should be |
| `Lock.NextKeepsInv` | src/parishkit/pk_cron_runner.py:421-582 | Every step of every process keeps the lock's invariant, unless it removes a lock in mid-release |
| `Lock.RunKeepsInv` | src/parishkit/pk_cron_runner.py:421-582 | So does every run without such a removal |
| `Frames.AbsorbHolds` | src/parishkit/parishsoft_transport.py:195-263 | After any successful read the exchange holds exactly the bytes read so far |
| `Frames.CompleteIsOneFrame` | src/parishkit/parishsoft_transport.py:195-288 | A complete exchange has read exactly the bytes of one printed reply, and holds that reply |
| `Frames.AbsorbReadsOn` | src/parishkit/parishsoft_transport.py:242-288 | Reading any chunk of a printed frame never fails, and the state depends only on how many bytes were read |
| `Frames.HeaderShape` | src/parishkit/parishsoft_transport.py:266-288 | Every printed header passes the parser's shape rules and parses back to its status and length |
| `Frames.FramesArePrefixFree` | src/parishkit/parishsoft_http_worker.py:238-274 | A byte stream has at most one reading as a first frame and a rest |
| `Frames.NumberOfDigits` | src/parishkit/parishsoft_http_worker.py:255-265 | Decimal printing reads back, without a leading zero |
| `Frames.DigitsOfNumber` | src/parishkit/parishsoft_transport.py:266-288 | Every numeral the parser accepts is the printing of its value |
| `HelperExchange.PollLoop` | src/parishkit/parishsoft_transport.py:195-240 | The loop over ready pipes computes the value-level exchange, for every sequence of readiness events |
| `HelperExchange.ReturnIsFirstFrame` | src/parishkit/parishsoft_transport.py:195-288 | On any byte stream, a successful return is the decoding of the first frame, consumes exactly it, and no other frame leads the stream |
| `HelperExchange.RoundTrip` | src/parishkit/parishsoft_transport.py:195-240 | For every reply the helper can print and every split into reads the exchange never fails, returns exactly status line and body, waits only while bytes are in transit, and has returned after as many rounds as request and reply have bytes if every round moves one each way |
| `HelperExchange.FrameFormat` | src/parishkit/parishsoft_http_worker.py:255-265 | A frame and its handed form, byte by byte |
| `HelperExchange.ReadsStayInFrame` | src/parishkit/parishsoft_transport.py:216-232 | Whatever follows the frame, a read of the body takes exactly what is available of the frame |
| `HelperExchange.HeaderReadIsShort` | src/parishkit/parishsoft_transport.py:216-232 | Before the header is complete a read brings exactly what is available up to 32 bytes in all |
| `HelperExchange.OutcomeIsExplained` | src/parishkit/parishsoft_transport.py:195-263 | A reply is returned only if every round was owned, in time and on sound pipes and ownership still holds; lost ownership and timeouts have their cause |
| `HelperExchange.RefusedLineFails` | src/parishkit/parishsoft_transport.py:195-288 | However it is split, a refused line never returns a reply and fails with its own error once it is read |
| `HelperExchange.FailureLines` | src/parishkit/parishsoft_http_worker.py:238-274 | INVALID is refused as a broken body contract and ERROR as a bad frame |
| `HelperExchange.UnfinishedHeader` | src/parishkit/parishsoft_transport.py:266-288 | Without its newline a header is waited for up to 31 bytes and refused at 32 |
| `HelperExchange.HeaderLineIff` | src/parishkit/parishsoft_transport.py:100-103 | The header pattern, character by character |
| `HelperExchange.HeaderVerdict` | src/parishkit/parishsoft_transport.py:266-288 | Which complete header lines are a broken body contract, which a bad frame, and which neither |
| `HelperSessions.RepliesArePaired` | src/parishkit/parishsoft_transport.py:132-240 | Over every run of successes, timeouts, lost ownership, rebinding and restarts, with helpers that may die in the middle of a frame, each reply handed over is the one printed for that request by a helper with its key, and no request gets two |
| `HelperSessions.RequestIsServed` | src/parishkit/parishsoft_transport.py:195-240 | From every reachable idle session, an answered request is handed exactly its answer and leaves the helper in order |
| `HelperSessions.HelperIsReused` | src/parishkit/parishsoft_transport.py:132-205 | A helper is kept exactly for the same key, running and with nothing unread; otherwise a new one starts |
| `HelperSessions.HelperIsStopped` | src/parishkit/parishsoft_transport.py:138-148 | A failed exchange stops the helper, and closing forgets it and its key |
| `HelperSessions.CompleteIsOwnAnswer` | src/parishkit/parishsoft_transport.py:291-310 | A complete exchange holds the answer to its own request and leaves its helper at rest |
| `HelperSessions.NextKeepsInv` | src/parishkit/parishsoft_transport.py:132-148 | Every client and helper step keeps the session invariant |
| `ConstantContact.ComputeAllActions` | src/parishkit/pk_sync_ps_to_cc.py:721-831 | The loops over mappings and sorted addresses emit exactly the membership plan, in order |
| `ConstantContact.PlanHas` | src/parishkit/pk_sync_ps_to_cc.py:721-831 | An action is planned if and only if the difference between the account and the desired sets calls for it |
| `ConstantContact.SortedIsAscending` | src/parishkit/pk_sync_ps_to_cc.py:767-831 | Actions are emitted in ascending order of addresses |
| `ConstantContact.ListPlanHas` | src/parishkit/pk_sync_ps_to_cc.py:791-831 | The same for subscriptions and unsubscriptions of the first mappings |
| `ConstantContactSync.AccountService.PerformOne` | src/parishkit/pk_sync_ps_to_cc.py:903-962 | The built bodies, the fold-in loop and the writes leave the contact on the lists it subscribed to and those its ids name more often than it unsubscribes, and change nobody else |
| `ConstantContactSync.GroupByEmail` | src/parishkit/pk_sync_ps_to_cc.py:905-907 | Every address gets exactly its own actions, in order, and the addresses come in the order of their first action |
| `ConstantContactSync.PostBody` | src/parishkit/pk_sync_ps_to_cc.py:965-995 | A sign-up is built exactly for a create or subscribe action, with the subscribed lists in order |
| `ConstantContactSync.PutBody` | src/parishkit/pk_sync_ps_to_cc.py:998-1028 | The loop of removals takes away one copy per unsubscribe action, starting from the lists as loaded |
| `ConstantContactSync.AccountService.ExecuteActions` | src/parishkit/pk_sync_ps_to_cc.py:890-962 | The loop over grouped actions changes the live account as the value-level execution says |
| `ConstantContactSync.PerformLists` | src/parishkit/pk_sync_ps_to_cc.py:965-1028 | One contact ends on the lists it subscribed to and those its ids name more often than it unsubscribes; nobody else changes |
| `ConstantContactSync.PerformOnLive` | src/parishkit/pk_sync_ps_to_cc.py:903-962 | When the live contact changed since it was loaded: an update replaces its lists by the loaded ones with the changes, a sign-up alone only adds, and a contact exists afterwards iff it did or was signed up |
| `ConstantContactSync.ExecutedLists` | src/parishkit/pk_sync_ps_to_cc.py:890-962 | The same for every contact after the whole execution |
| `ConstantContactSync.SyncConverges` | src/parishkit/pk_sync_ps_to_cc.py:890-1028 | After execution a contact is on a configured list iff it is desired there, or its ids named that list twice; every other list is as before, also with both POST and PUT |
| `ConstantContactSync.SecondRunIsIdle` | src/parishkit/pk_sync_ps_to_cc.py:721-831 | Recomputing membership actions afterwards yields none, iff no contact was to leave a list its ids named twice |
| `ConstantContactSync.RepeatedListSurvives` | src/parishkit/pk_sync_ps_to_cc.py:998-1028 | A concrete account where one removal leaves the contact on the list |
| `ConstantContactSync.FilterUnsubscribed` | src/parishkit/pk_sync_ps_to_cc.py:625-653 | The in-place filter takes exactly the opted-out addresses out of every desired set, and reports each of them once per set, in contact order, with its members' names and ids |
| `ConstantContactSync.CommaJoinedIs` | src/parishkit/pk_sync_ps_to_cc.py:645-651 | Names and ids are joined with a comma and a blank |
| `ConstantContactSync.DropoutsAre` | src/parishkit/pk_sync_ps_to_cc.py:625-653 | The reported addresses are exactly the desired ones that opted out, without repeats, however often a contact is listed |
| `ConstantContactSync.OptedOutStayOff` | src/parishkit/pk_sync_ps_to_cc.py:625-653 | After a sync with the filtered sets an opted-out contact is on a configured list iff its ids named it twice |
| `GoogleGroups.DesiredMembers` | src/parishkit/pk_sync_ps_to_ggroup.py:809-851 | The dictionary merged in place holds, in insertion order, exactly the merged members |
| `GoogleGroups.MatchDesired` | src/parishkit/pk_sync_ps_to_ggroup.py:890-960 | The loop plans the adds and role changes, and marks exactly the matched current members |
| `GoogleGroups.ComputeActions` | src/parishkit/pk_sync_ps_to_ggroup.py:890-960 | The whole diff is the plan whose application is proved to converge |
| `GoogleGroups.NormalizeIs` | src/parishkit/pk_sync_ps_to_ggroup.py:1415-1431 | What an address is compared as: lower case always, no tag in hosted domains, no dots in the two Gmail domains |
| `GoogleGroups.SameAddressIff` | src/parishkit/pk_sync_ps_to_ggroup.py:1415-1439 | Two Google-hosted addresses are the same iff domain and untagged local part are, without dots for consumer Gmail only |
| `GoogleGroupSync.MergeAllRepresents` | src/parishkit/pk_sync_ps_to_ggroup.py:1258-1284 | Merged members have distinct comparable addresses, one for every source's; each leads iff some source at its address does, and carries their names in order |
| `GoogleGroupSync.NamesAtHas` | src/parishkit/pk_sync_ps_to_ggroup.py:1258-1284 | The names carried are exactly those given at the address, blank ones left out |
| `GoogleGroupSync.OrderedPlan` | src/parishkit/pk_sync_ps_to_ggroup.py:963-1035 | Sorting the plan puts all deletes first and keeps the order otherwise |
| `GoogleGroupSync.GroupService.WriteEach` | src/parishkit/pk_sync_ps_to_ggroup.py:963-1035 | The write loop changes the group action by action and stops at the first refusal, leaving the group as the writes before it made it |
| `GoogleGroupSync.GroupService.ApplyActions` | src/parishkit/pk_sync_ps_to_ggroup.py:963-1035 | Applying a plan writes deletes first, then the rest, and stops likewise |
| `GoogleGroupSync.PlanConverges` | src/parishkit/pk_sync_ps_to_ggroup.py:890-1035 | The plan is accepted in full; the group then has exactly one member per desired address, `OWNER` for a leader and `MEMBER` otherwise, and nobody else; matched members keep id and address |
| `GoogleGroupSync.SecondDiffIsEmpty` | src/parishkit/pk_sync_ps_to_ggroup.py:890-960 | However the group is listed afterwards, the next diff is empty |
| `GoogleGroupSync.SyncSettles` | src/parishkit/pk_sync_ps_to_ggroup.py:809-1035 | From any membership sources and Google-hosted domains, one sync leaves exactly one member at each source's address and nobody else, `OWNER` where some source leads and `MEMBER` elsewhere, and the next sync does nothing |
| `Reservations.ReservationDecisions` | src/parishkit/pk_validate_gcalendar_reservations.py:415-521 | The loops compute the value-level decisions |
| `Reservations.Classify` | src/parishkit/pk_validate_gcalendar_reservations.py:433-461 | The first loop splits the events into refused, pending and existing ones, in order |
| `Reservations.DecideQueue` | src/parishkit/pk_validate_gcalendar_reservations.py:481-521 | The second loop decides each request against the calendar and those accepted before it |
| `Reservations.EachRequestDecidedOnce` | src/parishkit/pk_validate_gcalendar_reservations.py:415-521 | Every event awaiting an answer gets exactly one decision, and no other event any |
| `Reservations.AnswersAreExplained` | src/parishkit/pk_validate_gcalendar_reservations.py:433-521 | Each answer's reason holds of the request: its creator's domain is not acceptable, a time is missing, or a conflict with checking on; accepted iff no reason |
| `Reservations.AcceptedAreCompatible` | src/parishkit/pk_validate_gcalendar_reservations.py:472-521 | An accepted request shares less than two seconds with every opaque event on the calendar that was neither declined nor awaits an answer and has both times, and with every opaque request accepted before it, so any two accepted opaque requests share less than two seconds |
| `Reservations.DeclinesAreJustified` | src/parishkit/pk_validate_gcalendar_reservations.py:481-521 | A conflict decline names an event that overlaps it after both are shortened by a second at each end, and that is an opaque, answered event of the calendar or an accepted opaque request created no later |
| `Reservations.OrderIsIrrelevant` | src/parishkit/pk_validate_gcalendar_reservations.py:433-521 | With distinct creation keys, permuting the events changes no answer |
| `Lists.SortIsStable` | src/parishkit/pk_validate_gcalendar_reservations.py:483-485 | Requests created at the same time keep their order |
| `Lists.LeqIsDictionaryOrder` | src/parishkit/pk_validate_gcalendar_reservations.py:483-485 | Creation times are compared as strings, at their first difference |
| `Reservations.NudgeBound` | src/parishkit/pk_validate_gcalendar_reservations.py:619-633 | Events that do not conflict after the nudge share less than two seconds |
| `Reservations.NudgeIsExact` | src/parishkit/pk_validate_gcalendar_reservations.py:679-684 | For events of two seconds or more, conflicting is sharing at least two seconds |
| `Reservations.SharedTimeMeans` | src/parishkit/pk_validate_gcalendar_reservations.py:619-633 | Sharing a length of time means running together for at least that long |
| `Reservations.CreatorDomainIs` | src/parishkit/pk_validate_gcalendar_reservations.py:612-616 | The domain is what follows the last `@`, in lower case |
| `UnsubscribedReport.SentAtMostOnce` | src/parishkit/pk_sync_ps_to_cc.py:1423-1464 | Over any interleaving without a crash between send and mark, no (date, mapping) report is sent twice; and over any interleaving at all, none that the initial state file records is sent |
| `UnsubscribedReport.RecordedIsNeverSent` | src/parishkit/pk_sync_ps_to_cc.py:1423-1464 | Whatever crashes, no continuation sends a report that the state file records |
| `UnsubscribedReport.LastDateIsComplete` | src/parishkit/pk_sync_ps_to_cc.py:1595-1644 | Whatever crashes, a last sent date implies that every mapping the run setting it had to report is recorded for that date |
| `UnsubscribedReport.OnlyFinishSetsDate` | src/parishkit/pk_sync_ps_to_cc.py:1634-1644 | From every reachable state, no step but a run's completion changes the last sent date |
| `UnsubscribedReport.CrashRepeatsMail` | src/parishkit/pk_sync_ps_to_cc.py:1397-1464 | After a crash in that window, from any reachable state, earlier such crashes included, some continuation sends the report again if and only if a run with it is already due, or is still to come and the date is open or can be opened again by a run with contacts to report for another date |
| `UnsubscribedReport.CrashCanRepeat` | src/parishkit/pk_sync_ps_to_cc.py:1544-1592 | The failing run, for every report that is neither recorded nor closed at the start |
| `UnsubscribedReport.RunReports` | src/parishkit/pk_sync_ps_to_cc.py:1397-1464 | A new run left to itself mails exactly what is due and unrecorded, records it all, closes the date and frees the lock; without anything to report, or on a closed date, it does nothing |
| `UnsubscribedReport.FinishClosesDate` | src/parishkit/pk_sync_ps_to_cc.py:1423-1464 | In every reachable state the lock is held exactly by a run inside it, and finishing finds every report recorded and closes the date |
| `UnsubscribedReport.FailedSendFreesLock` | src/parishkit/pk_sync_ps_to_cc.py:1579-1592 | A send that fails ends the run, frees the lock and leaves what was recorded |
| `UnsubscribedReport.RunsMayEnd` | src/parishkit/pk_sync_ps_to_cc.py:1544-1592 | A run outside its schedule leaves no trace, and a run may die at any moment, which frees the lock |
| `StrictYaml.Loader.CheckExpansion` | src/parishkit/config.py:59-78 | The recursive walk with its node counter computes the value-level verdict and count |
| `StrictYaml.Loader.ConstructDocument` | src/parishkit/config.py:80-84 | A document is let through to construction if and only if its full unfolding is within the limits, after at most `nodes + 1` visits |
| `StrictYaml.ExpansionCheckIsExact` | src/parishkit/config.py:59-84 | On any finite graph, cyclic or shared, it stops within `nodes + 1` visits and accepts iff the full unfolding is within both limits |
| `StrictYaml.AcceptedUnfolds` | src/parishkit/config.py:59-78 | An accepted walk visited a finite unfolding within both limits, once per node |
| `StrictYaml.SmallIsAccepted` | src/parishkit/config.py:59-78 | A document whose unfolding is within both limits is accepted with exactly its size counted |
| `StrictYaml.VisitsBounded` | src/parishkit/config.py:59-78 | The counter never passes `nodes + 1`, accepted or not |
| `StrictYaml.ChildrenAre` | src/parishkit/config.py:71-78 | A mapping's keys and values are both visited, in turn, and a sequence's items |
| `ParseCache.CachedLoadsAreFresh` | src/parishkit/config.py:110-180 | Under any interleaving of loads, edits and caller mutation, and no digest collision, a load returns what parsing the bytes it read would; at most eight entries, one per path |
| `ParseCache.LoadReturns` | src/parishkit/config.py:110-180 | From every reachable state, a load left to itself returns what the bytes mean, or nothing if they cannot be parsed |
| `ParseCache.RepeatedLoadHits` | src/parishkit/config.py:142-180 | Unchanged bytes loaded right after they were stored are answered without a parse |
| `ParseCache.PutKeeps` | src/parishkit/config.py:142-180 | Storing puts the entry last, where it is found under its path; every entry of another path stays, unless the path is new and the cache full: then exactly the oldest goes |
| `ParseCache.RunKeepsInv` | src/parishkit/config.py:110-180 | Every run keeps cached values private and equal to a parse of their digest's bytes |
| `GraphCopy.Copier.Copy` | src/parishkit/pk_query_ps_memfam.py:216-244 | The memoised recursion terminates on any finite graph, extends the memo soundly, and returns the image of its argument |
| `GraphCopy.OmitMembershipLists` | src/parishkit/pk_query_ps_memfam.py:216-244 | Exactly one copy per reached container, mirroring it edge for edge, list-valued `membership` entries becoming the marker |
| `GraphCopy.ReachedExactly` | src/parishkit/pk_query_ps_memfam.py:216-244 | The copied containers are exactly those reachable without passing an omitted list |
| `GraphCopy.CopyLooksTheSame` | src/parishkit/pk_query_ps_memfam.py:202-244 | Every path from the root leads in the copy to the image of where it leads in the source, and no other path leads anywhere |
| `GraphCopy.CopyOfContainer` | src/parishkit/pk_query_ps_memfam.py:216-244 | Each copied dict has the same keys in order, the marker exactly for list-valued `membership` entries, and every other value copied |
| `ParishRecords.Records.Link` | src/parishkit/parishsoft.py:819-836 | Each member points at its loaded family, if any; each family lists exactly its members, in order |
| `ParishRecords.LinksAre` | src/parishkit/parishsoft.py:819-836 | A member points at its family if that was loaded, and a family lists each of its members once |
| `ParishRecords.Records.RemoveMemberships` | src/parishkit/parishsoft.py:1634-1653 | Rebuilding every group row by row keeps each row not naming the member as often as before, in order, and no other |
| `ParishRecords.Records.RemoveFamilyMemberships` | src/parishkit/parishsoft.py:1601-1631 | The same for rows naming the family, in all three collections |
| `ParishRecords.Records.DropMembers` | src/parishkit/parishsoft.py:1533-1598 | The first pass removes exactly the members out of scope, their roster entries and their rows |
| `ParishRecords.Records.RemoveFamilies` | src/parishkit/parishsoft.py:1533-1598 | The second pass removes exactly the families out of scope given who is left, their members and the rows naming them |
| `ParishRecords.Records.FilterRecords` | src/parishkit/parishsoft.py:1533-1598 | The two passes together refine the declarative filter on members, families, rosters and rows |
| `ParishRecords.FilterIsConsistent` | src/parishkit/parishsoft.py:1533-1664 | Retained families list exactly their retained members, retained members' loaded families are retained, no family is empty unless allowed, and a member is gone iff it or its family is out of scope |
| `ParishRecords.RetainedIff` | src/parishkit/parishsoft.py:1533-1664 | Exactly who stays: members in scope whose loaded family stays, and families with a member in scope (unless empty ones stay), active and of the parish as asked |
| `ParishRecords.NoDanglingRows` | src/parishkit/parishsoft.py:1601-1653 | A workgroup or ministry row is retained iff it names neither a removed family nor a member dropped in the first pass, and a family-workgroup row iff it names no removed family |
| `ParishRecords.DanglingIffMisattributed` | src/parishkit/parishsoft.py:1601-1653 | Some retained row names a member removed with its family iff some loaded row names such a member and itself names no removed family, or no family; never when rows agree with their members |
| `ParishRecords.RowCanDangle` | src/parishkit/parishsoft.py:1601-1653 | A concrete load in which a row outlives its member |
| `Organizations.Client.OwnOrganization` | src/parishkit/parishsoft.py:251-309 | The row-by-row filter returns and leaves, also when it refuses half-way, what the value-level filter says |
| `Organizations.KeptAndSkipped` | src/parishkit/parishsoft.py:251-309 | A filtered read succeeds iff every record's organization can be proved; kept plus skipped is fetched; no other count moves |
| `Organizations.KeptAre` | src/parishkit/parishsoft.py:251-309 | Exactly which records are kept, for contacts and for other collections, what is passed on as it is, and what is remembered of Members and of the others' families |
| `Organizations.RefusalCounts` | src/parishkit/parishsoft.py:251-309 | A refused read has counted the others before the record that cannot be proved |
| `Organizations.ReadIsCached` | src/parishkit/parishsoft.py:384-420 | What a read returns is cached, and answers the next read whatever the server would say |
| `Organizations.RefilterIsIdentity` | src/parishkit/parishsoft.py:384-388 | Filtering a filtered result again is the identity iff it is not a contact list or all its contacts are of Members kept now; then nothing is counted |
| `Organizations.CachedContactsCanShrink` | src/parishkit/parishsoft.py:272-290 | A concrete contact list that loses a row when it is filtered again for fewer Members |
| `Organizations.OnlyOwnRecords` | src/parishkit/parishsoft.py:361-420 | Over any loads and keys sharing the cache: with a key reaching several organizations only the loaded one's records of the filtered collections are returned (endpoints without an organization field, families among them, are returned as answered), contacts only of Members returned in that load; every copy of a filtered collection written under several organizations holds only its own organization's records |
| `EmailFields.SplitEmailAddresses` | src/parishkit/parishsoft.py:774-793 | The loop past a seen set returns the cleaned distinct addresses in order of first occurrence |
| `EmailFields.SplitIsStable` | src/parishkit/parishsoft.py:729-793 | Addresses split from any fields are normal and distinct, and splitting their joined field gives the same list |
| `EmailFields.AddressIff` | src/parishkit/parishsoft.py:774-793 | An address is found iff some field has it between semicolons, up to outer blanks and case |
| `EmailFields.FurtherFieldsFollow` | src/parishkit/parishsoft.py:774-793 | Further fields only add addresses after those found already |
| `EmailFields.JoinReadsBack` | src/parishkit/parishsoft.py:729-755 | A field rewritten from any normal list reads back as that list |

## Left out

- HTTP, OAuth, SMTP, Google and Constant Contact client libraries: they appear only as the state the reconcilers change.
- Constant Contact name updates: a rename only makes its contact need a PUT; an empty new name keeps the old one, so names are no fixed point.
- Removal guards, dry runs and the plan-then-apply order of whole sync runs: they decide whether a plan is applied at all; the model starts from a plan that is.
- Selection of group members from ParishSoft workgroups and ministries, and static configuration: the model starts from the resulting (address, leader, name) sources.
- `CoherentParishSoftClient` request and byte budgets, its tenant guard, and the choice of organization in `select_organization`: single-branch checks.
- Subprocess, selector, flock and file-system behaviour: reduced to steps (create exclusively, read, unlink, take and drop the guard, deliver some bytes, kill the helper).
- The lock, the helper sessions, the report state and the parse cache are state machines over values, not classes, because their theorems are about interleavings.
- Reuse of one `LockFile` instance for a second acquisition: each runner of the model acquires once; another acquisition is another runner.
- The deadline arithmetic of the helper exchange: whether a round is in time is an arbitrary input.
- The worker's own HTTP request in `perform`: the helper answers with any status and body its frame rules admit, or fails.
- PyYAML scanning and composition, duplicate-key checks and JSON decoding: the node graph and the parsed value are given. A configuration file that is missing is not part of the cache model.
- Unicode case folding and white space: ASCII lower case and ASCII blanks stand for them.
- Time zones and date parsing: an event has integer instants or none.
- Pagination identities: tuples and strings returned by the identity extractors are integers.
- Malformed report state files and the sending schedule: the state is read as given, and a run may be skipped at any point before it starts.
- HTML, spreadsheets, logging, redaction and the stewardship administration views: presentation and orchestration.
