# OpenPT verification

A Dafny model of the hard parts of OpenPT: the scheduler with its bandwidth ledger and its threads, the
torrent store over a file system that may fail, the front-end bundler, the tracker wire formats and the
pattern-driven id generators. `dafny verify dfyconfig.toml` checks all of it.

Code that updates state step by step is a class or a method with loops, proved against functions on values;
the properties of whole runs are then lemmas about those functions. The threads of the scheduler are a state
machine with one step per critical section (`interleaving.dfy`); the upload counters and slots are proved on a
coarser machine in which `stopTorrent`, `completeTorrent`, `persistState` and one round of `fillSlots` are
atomic (`scheduler.dfy`), because between line 380 and line 389 of the scheduler an upload count is in no map;
a third machine follows the counts through these lines, section by section (`uploads.dfy`).

| file | what it models |
|---|---|
| `interleaving.dfy` | announcer loops, removers, stopped announces and `Stop` as interleaved critical sections |
| `scheduler.dfy` | slots, completion, upload counters, persistence |
| `uploads.dfy` | upload counts between the ledger, the goroutines that stop torrents and the records |
| `announcer.dfy` | one announcer's loop: events, delays, tracker rotation, back-off |
| `bandwidth.dfy`, `dispatcher.dfy` | shares by peer weight; the dispatcher, its configuration and its ticks |
| `entries.dfy`, `store.dfy` | hashes by path and the event log; the store's operations |
| `files.dfy` | system calls that may fail, moving files, free names |
| `delivery.dfy` | loads and removals as interleaved sections, their events sent afterwards |
| `scans.dfy` | the scan that skips unchanged files against the scan that reads all of them |
| `bundler.dfy` | module graph, imports and the flat scope of the bundle |
| `numerals.dfy`, `bencode.dfy`, `urlencode.dfy`, `query.dfy`, `udp.dfy` | numbers as text, tracker replies, percent-encoding, queries, the UDP announce packet |
| `regex.dfy`, `generators.dfy` | the pattern parser and the id generators |

Conventions: an info hash is its 20 bytes read as one number, so that number order is the order of hex texts;
`float64` is `real`; times and durations are nanoseconds; the clock, random numbers, the parser of torrent
files, the exclusion pattern of the encoder and the parser of IPv4 texts are parameters. Maps that Go goes
through in random order are gone through in any order.

## What does not hold

Some properties one would expect are false of the code; each has a lemma with the condition under which it
holds, or with a run that shows the failure.

- A torrent that is added again between `removeActive` and `Unregister` loses its live bandwidth entry
  (`EntryIsLostExactly`, `ReaddedTorrentLosesItsEntry`).
- `Stop` leaves its announcers active, so a concurrent removal can send a second stopped announce
  (`SecondStoppedExactly`, `StopCanLaunchASecondOne`); there are never more than two (`StoppedTwiceAtMost`),
  and only one when no announcer `Stop` has collected is removed meanwhile (`LeftAloneStopsOnce`).
- The loop looks up the hash, not the announcer, so a removed announcer can still be marked started
  (`MarkedAfterRemovalExactly`, `RemovedAnnouncerCanStillStart`).
- A transfer drops a hash when an entry at one of its two paths is the only one of another hash
  (`TransferKeepsHashesExactly`, `StaleEntryIsLost`); a file that vanishes just before a transfer to its
  path is such a run of the store (`StaleEntryRun`).
- Events are sent after the lock is released, so a `Removed` that was right when it was decided can follow
  the `Added` of a later load (`EveryDeliveryIsRightExactly`, `DecisionStaysSettledExactly`,
  `RemovalSpeaksTooLate`).
- At the grain of critical sections an upload count can fall: a torrent added again before its count is read
  gets the old record restored over it, and what is credited between the reading and `Unregister` is dropped
  (`CountFallsExactly`, `RestoreLosesUpload`); otherwise it never does (`CountsNeverFall`). The state file can
  say less than is known (`PersistWritesLessExactly`, `PersistMissesARemoval`).
- A file that cannot be read for a moment is not tried again at the next scan, as the comment at
  `internal/store/store.go:370-375` promises, or it is archived although it is good
  (`FailedVisitFitsExactly`, `LockedFileRun`, `GoodFileIsArchived`).
- A file overwritten between its reading and the look at its fingerprint keeps its old entry
  (`OvertakenAgreesExactly`, `OverwrittenFileStaysStale`).
- The scan never reads again a file that a transfer has entered as another torrent than its content tells of
  (`TransferRefinesExactly`).
- A move can fail and leave a copy at the destination, exactly when certain of its calls fail
  (`MoveLeavesCopy` in `MoveFile`, `FailedCloseLeavesACopy`).
- `uniquePath` does not end when neither the plain name nor any numbered one is found absent
  (`SearchEndsExactly`), as for a taken name near the limit on name lengths (`NameLimitDecides`,
  `TakenNameAtTheLimit`) or in a directory that cannot be searched (`UnsearchableDirectory`).
- The back-off misses `min(max, min * 2^(f-1))` by one when that is one short of an odd maximum
  (`BackoffIsExponential`).
- One sample at construction does not bound every later peer id: a class with a rune above 0xff, or a hash
  whose leading zeros are dropped, can yield an unacceptable one (`AlwaysAcceptableExactly`,
  `LeadingZeroDropBreaksTheLength`, `SampleMissesWideRune`).
- A jitter of 100 percent gives twice the configured rate at every refresh, as a lower end of zero reads as
  none given (`FullJitterDoublesTheRate`); below that the rate lies around the configured one
  (`JitterIsDrawnFrom`).
- Percent-encoding loses data exactly when the pattern excludes the percent sign (`LosslessExactly`).
- A peer id sent without percent-encoding reaches the packet only as ASCII text without percent sign and
  ampersand (`RawPeerSurvivesExactly`).
- A `complete` of minus 2^63 in a tracker reply wraps to 2^63 - 1 seeders (`OtherSeedersExact`).
- A name a module neither declares nor imports is captured when another module declares it
  (`FreeNamesAreCaptured`, `CaptureRun`).

## Model

| member | source | states |
|---|---|---|
| Interleaving.StepKeepsInv | internal/scheduler/scheduler.go:343-423 | every critical section of `tryAdd`, the loop, `stopTorrent`, `completeTorrent`, the stopped goroutines and `Stop` keeps: active map and unremoved announcers coincide, each bandwidth entry is active or owed an Unregister, each stopped goroutine has its own removal or place in Stop's list, the counters count; what is cancelled is in `CancelledExactly` |
| Interleaving.RunsKeepInv | internal/scheduler/scheduler.go:343-423 | the same over every interleaving of any length; with cancellations and events in `RunsKeepLoops` |
| Interleaving.NoOrphanEntries | internal/scheduler/scheduler.go:369-381 | in every reachable state each bandwidth entry belongs to an active hash or to one whose remover has not reached its Unregister; once all removers are done, entries are a subset of the active hashes |
| Interleaving.EntriesStep | internal/scheduler/scheduler.go:537-553 | one step keeps the no-orphan rule; the check of the active map under the lock is what the case of a late success needs |
| Interleaving.StoppedOnceBeforeStop | internal/scheduler/scheduler.go:369-378 | before `Stop` begins an announcer has at most one stopped announce, none while it is active, and after its remover is done exactly one if and only if the remover saw it started, which being started at the removal guarantees |
| Interleaving.StoppedTwiceAtMost | internal/scheduler/scheduler.go:203-237 | over a whole run, shutdown included, no announcer has three stopped announces |
| Interleaving.StoppedAnnouncesAreBounded | internal/scheduler/scheduler.go:400-423 | at most 8 goroutines hold the semaphore in any state, and the wait group equals the number of goroutines not ended |
| Interleaving.ClosedForGood | internal/scheduler/scheduler.go:225-228 | after the entrance is closed no stopped announce is launched and the wait group never rises, whatever runs on |
| Interleaving.CompletedWaitMissesNothing | internal/scheduler/scheduler.go:229-235 | when the wait completes, every stopped announce ever launched has ended and none follows |
| Interleaving.SomeoneCanGoOn | internal/scheduler/scheduler.go:408-422 | while the wait group is above zero some goroutine can take a step: the semaphore never blocks all of them |
| Interleaving.WaitCanComplete | internal/scheduler/scheduler.go:225-235 | from every reachable state in which `Stop` waits there is a run that ends the wait |
| Interleaving.EntryIsLostExactly | internal/scheduler/scheduler.go:379-381 | a step takes the entry of an active, started announcer away if and only if it unregisters a hash that was added again and has started |
| Interleaving.WaitingAddsLoseNothing | internal/scheduler/scheduler.go:343-381 | if no hash is added while an Unregister of it is owed, every active started announcer keeps its entry over any run |
| Interleaving.ReaddedTorrentLosesItsEntry | internal/scheduler/scheduler.go:369-394 | a run in which an active, started torrent has no bandwidth entry although no remover is left |
| Interleaving.SecondStoppedExactly | internal/scheduler/scheduler.go:203-224 | a step gives an announcer its second stopped announce if and only if the entrance is open and it is a remover's launch after Stop's, or Stop's after a remover's |
| Interleaving.LeftAloneStopsOnce | internal/scheduler/scheduler.go:203-237 | over any run in which no announcer that Stop has collected is removed while the entrance is open, no announcer gets a second stopped announce |
| Interleaving.MarkedAfterRemovalExactly | internal/scheduler/scheduler.go:543-549 | a step marks a removed announcer started if and only if it is the announcer's first success and its hash has been added again |
| Interleaving.StopCanLaunchASecondOne | internal/scheduler/scheduler.go:208-224 | a run in which `Stop` and a removal both launch a stopped announce for one announcer |
| Interleaving.RemovedAnnouncerCanStillStart | internal/scheduler/scheduler.go:543-549 | a run in which an announcer that was not started when removed is marked started afterwards and sent a stopped announce |
| Interleaving.CancelledExactly | internal/scheduler/scheduler.go:208-214 | a step cancels an announcer if and only if it removes it, or is the beginning of `Stop` and the announcer is active; nothing takes a cancellation back |
| Interleaving.RemovedExactly | internal/scheduler/scheduler.go:464-475 | an announcer is removed by the section that takes it out of the active map and by nothing else, for good |
| Interleaving.RunsKeepLoops | internal/scheduler/scheduler.go:369-704 | over every run: an announcer is cancelled if and only if it is removed or `Stop` has begun, and a loop that goes on sends the event started if and only if no success has marked its announcer |
| Interleaving.LoopsEndExactly | internal/scheduler/scheduler.go:477-566 | in every reachable state a removed announcer's announce cannot succeed and its loop can end, whereas that of an active one before shutdown can succeed and cannot end |
| Interleaving.RemovedGetsNoAnswer | internal/scheduler/scheduler.go:675-704 | over every run an announcer removed without an answer in hand, completed ones included, never gets one |
| Interleaving.EndedLoopsStayEnded | internal/scheduler/scheduler.go:477-484 | a loop that has ended stays ended over every run |
| Interleaving.StopCancelsTheActive | internal/scheduler/scheduler.go:208-214 | right after `Stop` begins every announcer is cancelled: the active ones by it, the others were removed before |
| Interleaving.StopServesTheStarted | internal/scheduler/scheduler.go:215-228 | once the entrance is closed, `Stop` has launched a stopped announce for exactly the announcers that were active and started when it began |
| Interleaving.AddedTorrentCanStart | internal/scheduler/scheduler.go:343-367 | an added torrent can report at once; it then is active, marked started and alone new in the ledger |
| Interleaving.StoppedAnnouncesAreSent | internal/scheduler/scheduler.go:408-422 | a stopped announce that waits no more has got the semaphore, unless the context it waits under was cancelled |
| Interleaving.LaunchedWaiting | internal/scheduler/scheduler.go:400-407 | a stopped announce is launched waiting, one of a removal under the root context and one of `Stop` under the context of `Stop` |
| Scheduler.StepKeepsInv | internal/scheduler/scheduler.go:253-462 | every atomic operation keeps: live counts only for active hashes and never behind the persisted ones, persisted counts non-negative, `completed` equal to the flagged records and disjoint from `active` |
| Scheduler.RunsKeepInv | internal/scheduler/scheduler.go:253-462 | the same over every run |
| Scheduler.StopKeepsCompletedExactly | internal/scheduler/scheduler.go:369-462 | `stopTorrent` keeps `completed` equal to the flagged records and disjoint from `active` if and only if it does not stop an already completed hash for the ratio target |
| Scheduler.AddKeepsCompletedExactly | internal/scheduler/scheduler.go:343-367 | an add keeps `completed` equal to the flagged records and disjoint from `active` if and only if the hash is not completed |
| Scheduler.UploadNeverFalls | internal/scheduler/scheduler.go:343-462 | over any run that does not remove its file, the upload a hash reports (live entry, else record) never decreases |
| Scheduler.StepNeverReportsLess | internal/scheduler/scheduler.go:343-394 | the same for one add, answer, tick, stop, replacement, completion or reconcile |
| Scheduler.OnlyTicksCredit | internal/scheduler/scheduler.go:343-462 | no step but a tick and the removal of its file changes the upload a hash reports: stops, replacements, completions, adds and answers move the count between entry and record without adding to it |
| Scheduler.ReportIsWhatTicksCredit | internal/scheduler/scheduler.go:343-462 | over any run that does not remove its file a hash reports exactly what it reported before plus what the ticks credit it |
| Scheduler.NothingCredited | internal/scheduler/scheduler.go:343-462 | over a run without ticks exactly what it reported before |
| Scheduler.RemovalForgets | internal/scheduler/scheduler.go:432-440 | after the removal of its file nothing is left of a hash: not active, not completed, no record, report zero |
| Scheduler.CompletedUntilGivenBack | internal/scheduler/scheduler.go:432-462 | a hash is completed exactly from its completion to its removal, a manual stop or a reload that gives it back |
| Scheduler.ActiveUntilStopped | internal/scheduler/scheduler.go:343-394 | a hash is active exactly from its addition to its completion or a stop of it, with one announcer throughout |
| Scheduler.AnswerSetsPeers | internal/scheduler/scheduler.go:552-553 | after an answer the ledger has its peer counts, negative ones as zero |
| Scheduler.RatioReachedExactly | internal/scheduler/scheduler.go:861-866 | the target is reached if and only if it is positive, the size too, and the upload is not negative and at least target times size |
| Scheduler.RestartResumes | internal/scheduler/scheduler.go:706-846 | `persistState` followed by `loadPersistedState` gives the same completed set and for every hash exactly the upload reported at the time of the write; a record exists if and only if it says something |
| Scheduler.EveryFileIsASoundStart | internal/scheduler/scheduler.go:706-741 | whatever the state file says, negative counts included, the scheduler starts in a state that meets the invariants |
| Scheduler.Scheduler.constructor | internal/scheduler/scheduler.go:161-172 | a new scheduler is the restart from the state file |
| Scheduler.Scheduler.TryAdd | internal/scheduler/scheduler.go:343-367 | refuses exactly an active hash or a full house, then changes nothing; otherwise the new state is the add step, the upload restored when the record has one; `completed` stays right exactly unless it added a completed hash |
| Scheduler.Scheduler.PickNotIn | internal/store/store.go:730-739 | gives a stored torrent outside the excluded hashes, none exactly when there is none |
| Scheduler.Scheduler.AddNext | internal/scheduler/scheduler.go:330-340 | adds some stored torrent that is neither active nor completed, none exactly when there is none |
| Scheduler.Scheduler.FillSlots | internal/scheduler/scheduler.go:318-341 | terminates; afterwards no slot is free or every stored hash is active or completed; it only adds, never a completed hash and never past the limit, each with a new announcer, keeps every active one, and does nothing when full |
| Scheduler.Scheduler.RememberStopped | internal/scheduler/scheduler.go:432-462 | the record keeps the larger of its own and the live upload, so that what the hash reports is unchanged (`OnlyTicksCredit`); removal deletes record and completion, replacement keeps the flag, the other reasons clear it |
| Scheduler.Scheduler.Release | internal/scheduler/scheduler.go:369-389 | `stopTorrent` before it fills slots is the stop step, by which no report but that of a removed file changes (`OnlyTicksCredit`); `completed` stays right exactly unless it stopped a completed hash for the ratio target |
| Scheduler.Scheduler.StopTorrent | internal/scheduler/scheduler.go:369-394 | the stop step followed by adds only, for every hash and reason; every other announcer stays, and the hash comes back only with a new one; when the house stays full, exactly the stop step; `completed` stays right exactly unless it stopped a completed hash for the ratio target |
| Scheduler.Scheduler.SortedActive | internal/scheduler/scheduler.go:302-309 | lists each active hash once, in increasing order |
| Scheduler.Scheduler.StopOne | internal/scheduler/scheduler.go:310-312 | a stop above the limit: no other torrent takes the slot, and no completed record changes |
| Scheduler.Scheduler.StopSmallest | internal/scheduler/scheduler.go:310-312 | stopping the first hashes of the list removes exactly those from `active`, although every stop fills slots again, and keeps the completed records |
| Scheduler.Scheduler.StopOverflow | internal/scheduler/scheduler.go:289-314 | terminates; with overflow under a positive limit exactly `limit` announcers stay, those with the largest hashes, otherwise nothing changes; completed records are kept |
| Scheduler.Scheduler.Sizes | internal/scheduler/scheduler.go:261-264 | the size of each stored hash |
| Scheduler.Scheduler.ReconcileCompleted | internal/scheduler/scheduler.go:259-281 | the completed hashes that become seedable each miss the target with a stored size, and each stored hash left completed meets it |
| Scheduler.Scheduler.Reconcile | internal/scheduler/scheduler.go:253-257 | after a reload every completed stored hash meets the new target and every one given back misses it, at most `limit` announcers are active, no slot is left empty without need, and no upload count has fallen |
| Scheduler.Scheduler.CompleteTorrent | internal/scheduler/scheduler.go:675-704 | does nothing unless the announcer itself is the active one; otherwise the completion step and then adds, without ticks or removals, and the announcer is active no more |
| Scheduler.Scheduler.AnswerSucceeded | internal/scheduler/scheduler.go:543-557 | does nothing for a hash that is not active; otherwise registers and updates peers; an announcer that stays active has not reached the ratio, nothing else happens where the ratio is not reached, and the active announcer that has reached it is completed, its report unchanged |
| Scheduler.Scheduler.HandleEvent | internal/scheduler/scheduler.go:187-197 | what each event leads to: Added fills slots, Removed and Replaced stop the hash and fill slots; every other announcer stays; only a Removed event changes an upload that is reported, and only that of its own hash |
| Scheduler.Scheduler.PersistState | internal/scheduler/scheduler.go:789-813 | the written records are the larger of persisted and live upload with the completed flag, trivial ones dropped |
| Scheduler.Scheduler.MarkCompleted | internal/scheduler/scheduler.go:789-800 | the records with the completed hashes flagged, before the live counts are looked at |
| Scheduler.Scheduler.MergeLive | internal/scheduler/scheduler.go:801-808 | each record then has the larger of its own and the live upload |
| Scheduler.Scheduler.DropTrivial | internal/scheduler/scheduler.go:809-813 | drops exactly the records without upload and flag |
| Scheduler.LoadPersistedState | internal/scheduler/scheduler.go:724-740 | negative uploads become zero, and the completed set is the flagged records |
| Scheduler.FileIsTaken | internal/scheduler/scheduler.go:161-172 | a hash starts completed exactly if the file flags it, with the upload of the file, a negative one as zero |
| Uploads.CountFallsExactly | internal/scheduler/scheduler.go:343-462 | one critical section lowers the largest of live count, record and counts held by removers if and only if it restores a smaller record over the live count, unregisters a live count larger than all of them, or forgets the record of a removed file |
| Uploads.CountsNeverFall | internal/scheduler/scheduler.go:369-704 | over every interleaving of adds, answers, ticks, stops and completions in which no hash is added before its Unregister, nothing is credited between the reading of a count and its Unregister, and no file is removed, the largest count of no hash falls |
| Uploads.UndisturbedKeepsInv | internal/scheduler/scheduler.go:369-394 | such steps keep: a live entry belongs to an active hash or to one goroutine that is to unregister it, and what is to be unregistered has been read or recorded in full |
| Uploads.UndisturbedLosesNothing | internal/scheduler/scheduler.go:369-394 | in such a state no such step loses a count |
| Uploads.PersistWritesLessExactly | internal/scheduler/scheduler.go:785-813 | what `persistState` writes at one moment of such a run is less than the largest count if and only if a goroutine holds more that has unregistered the entry and not yet recorded it |
| Uploads.PersistMissesARemoval | internal/scheduler/scheduler.go:789-808 | a run in which `persistState` copies the records before a removal and the live counts after it, and writes less than is on record by then |
| Uploads.RestoreLosesUpload | internal/scheduler/scheduler.go:343-381 | a run in which a torrent added again before its count is read ends with the old record as its only count |
| Uploads.CountRisesByTicksOnly | internal/scheduler/scheduler.go:343-462 | no critical section makes a count larger than any there was, but for what a tick credits |
| Uploads.CountsRiseByTicksOnly | internal/scheduler/scheduler.go:343-462 | over any run at all, disturbed or not, the largest count of a hash rises by no more than its credits |
| Uploads.TickAddsGains | internal/bandwidth/bandwidth.go:213-238 | a tick credits every live entry its gain and touches nothing else |
| Announcer.BackoffDelay | internal/scheduler/scheduler.go:868-883 | the delay of the specification, within the maximum, with no product beyond int64 for any number of failures |
| Announcer.BackoffIsExponential | internal/scheduler/scheduler.go:868-883 | the delay after the f-th failure is min(max, min * 2^(f-1)) if and only if that is not one short of the maximum from the second failure on; always so for whole seconds |
| Announcer.Announcer.constructor | internal/scheduler/scheduler.go:355-362 | the fields an announcer starts with |
| Announcer.Announcer.Announce | internal/scheduler/scheduler.go:632-667 | asks the tracker at the index modulo the list, and moves the index on exactly after a failed request |
| Announcer.Announcer.NextInterval | internal/scheduler/scheduler.go:515-536 | the larger of interval and min interval, kept within 30 seconds and 7 days |
| Announcer.Announcer.Body | internal/scheduler/scheduler.go:475-566 | one round of the loop is the round of the specification; `started` is only set by a success of the event started |
| Announcer.Announcer.Loop | internal/scheduler/scheduler.go:477-567 | the log of announces is that of the specified run, and the announcer is marked started afterwards exactly if it was or the event started has succeeded while its torrent was active |
| Announcer.StartedUntilItSucceeds | internal/scheduler/scheduler.go:477-567 | in every run the event started is sent until its first success and never after it |
| Announcer.DelaysAreBounded | internal/scheduler/scheduler.go:486-566 | every wait after a success lies in [30 s, 7 d]; every wait after a failure is the back-off of the failures in a row |
| Announcer.WaitIsTheInterval | internal/scheduler/scheduler.go:515-536 | the wait after a success is the longer of the reply's intervals in nanoseconds when that lies in [30 s, 7 d], and the nearer bound otherwise |
| Announcer.LoopEndsExactly | internal/scheduler/scheduler.go:477-566 | what each round comes to; the loop ends exactly when it is cancelled or, at a success, its torrent is no longer active or the ratio is reached; a failure never ends it |
| Announcer.FailureWaitsDouble | internal/scheduler/scheduler.go:490-507 | after the f-th failure in a row the loop waits min(max, min * 2^(f-1)), max being whole seconds |
| Announcer.RequestsRotate | internal/scheduler/scheduler.go:653-663 | every request asks the tracker of the one before it after a success and the next one after a failure |
| Announcer.FailedRequestsVisitEveryTracker | internal/scheduler/scheduler.go:653-663 | any n failed requests in a row ask each of the n trackers |
| Announcer.LoopFollowsNextAfter | internal/scheduler/scheduler.go:89-97 | over a whole run each event follows from the one before and its success as `NextAfter` says, never reaching its end: the loop sends no stopped announce |
| Bandwidth.SpeedsShareTheRate | internal/bandwidth/bandwidth.go:318-341 | the speeds sum to at most the rate and, with a positive total weight, to more than the rate less the number of torrents |
| Bandwidth.SumTakesAny | internal/bandwidth/bandwidth.go:326-332 | the total weight does not depend on the order the torrents are taken in |
| Bandwidth.WeightFollowsPeers | internal/bandwidth/bandwidth.go:343-361 | weight is weakly increasing in leechers and weakly decreasing in seeders for all non-negative counts |
| Bandwidth.LeechersDrawSpeed | internal/bandwidth/bandwidth.go:318-361 | raising one torrent's leechers at a fixed rate never lowers its speed and never raises another's |
| Bandwidth.WeightIs | internal/bandwidth/bandwidth.go:343-361 | the weight w of s seeders, at least one, and l leechers is given by w (s + l)^2 = 100 l^3; zero without leechers, a tenth without any peer |
| Bandwidth.RecomputedIsRight | internal/bandwidth/bandwidth.go:318-341 | after a recomputation every cached speed is floor(rate * weight / total weight) |
| Bandwidth.SpeedIsTheFloorShare | internal/bandwidth/bandwidth.go:318-341 | the speed v of a torrent of weight w satisfies v * total <= rate * w < (v + 1) * total; zero without rate or total weight |
| Dispatcher.NormalizeConfig | internal/bandwidth/bandwidth.go:240-287 | the normal form of every int64 configuration, wrap-around of base times jitter included; what it means for the rate is in `PlainRateIsNamed`, `RangeIsDrawnFrom` and `JitterIsDrawnFrom` |
| Dispatcher.ApplyJitter | internal/bandwidth/bandwidth.go:240-287 | where no range is given, one around the base rate, wrap-around included; its ends in numbers are in `JitterIsDrawnFrom` |
| Dispatcher.EveryConfigIsSane | internal/bandwidth/bandwidth.go:102-123 | every int64 configuration leaves base, minimum and maximum within [0, 2^40] and minimum not above a positive maximum |
| Dispatcher.RefreshedRateIsSane | internal/bandwidth/bandwidth.go:289-316 | a refreshed rate lies in [0, 2^40] and in the configured range, and `Int63n` is only asked for a positive width |
| Dispatcher.PlainRateIsNamed | internal/bandwidth/bandwidth.go:240-316 | without range and jitter the refreshed rate is the one the strategy names, the conservative or the configured one, or zero when off, brought into [0, 2^40] |
| Dispatcher.RangeIsDrawnFrom | internal/bandwidth/bandwidth.go:240-316 | with a range configured the rate is drawn from it, both ends included, whatever the base |
| Dispatcher.JitterIsDrawnFrom | internal/bandwidth/bandwidth.go:240-316 | with a jitter of p percent, p from 1 to 99, every rate within p percent of the base can be drawn, both ends included, and no other, where base times p does not wrap |
| Dispatcher.FullJitterDoublesTheRate | internal/bandwidth/bandwidth.go:240-316 | with a jitter of 100 percent the rate is twice the base at every refresh, because a lower end of zero reads as none given |
| Dispatcher.DrawsItsRange | internal/bandwidth/bandwidth.go:289-316 | a refresh draws exactly the numbers between the two ends |
| Dispatcher.PeriodIsConfigured | internal/bandwidth/bandwidth.go:240-242 | the time between refreshes is the configured number of seconds, twenty minutes where none is given |
| Dispatcher.OthersKeepTheirCounts | internal/bandwidth/bandwidth.go:125-186 | an operation on one hash leaves the counts, peers and carry of every other as they are |
| Dispatcher.EntryBecomes | internal/bandwidth/bandwidth.go:125-186 | what each operation makes of the entry it names, field by field |
| Dispatcher.OperationsKeepTheLedgerSane | internal/bandwidth/bandwidth.go:102-238 | after every operation each speed is its floor share, counts are non-negative, each carry lies in [0, 1) and the rate in [0, 2^40] |
| Dispatcher.RunsStaySane | internal/bandwidth/bandwidth.go:102-238 | the same over every run of operations |
| Dispatcher.GainIsTheFloorOfEarnings | internal/bandwidth/bandwidth.go:213-238 | over any run that keeps its entry a torrent gains the floor of its initial carry plus the sum of speed times min(elapsed, 2 s); the carry is exact and in [0, 1) |
| Dispatcher.TickCreditIsBounded | internal/bandwidth/bandwidth.go:213-238 | no tick credits more than two seconds of the rate over all torrents |
| Dispatcher.TickCredits | internal/bandwidth/bandwidth.go:213-238 | one tick gains a torrent its speed times the elapsed nanoseconds over a billion, nothing for negative time and two seconds at most, carry included; its speed is that of the refreshed rate if one was due |
| Dispatcher.Dispatcher.constructor | internal/bandwidth/bandwidth.go:56-83 | a new dispatcher is valid, without torrents, at a rate refreshed as `PlainRateIsNamed`, `RangeIsDrawnFrom` and `JitterIsDrawnFrom` say, the period between refreshes being a wrapped int64 product |
| Dispatcher.Dispatcher.RefreshCurrentRate | internal/bandwidth/bandwidth.go:289-316 | the rate becomes the refreshed one |
| Dispatcher.Dispatcher.Weigh | internal/bandwidth/bandwidth.go:326-332 | weights and their total, whatever order the map gives |
| Dispatcher.Dispatcher.RecomputeSpeeds | internal/bandwidth/bandwidth.go:318-341 | every cached speed is recomputed, nothing else changes |
| Dispatcher.Dispatcher.ClearSpeeds | internal/bandwidth/bandwidth.go:319-337 | all speeds become zero |
| Dispatcher.Dispatcher.SetSpeeds | internal/bandwidth/bandwidth.go:338-340 | each speed becomes the floor of its share |
| Dispatcher.Dispatcher.UpdateConfig | internal/bandwidth/bandwidth.go:102-123 | the new settings and a rate refreshed as `PlainRateIsNamed`, `RangeIsDrawnFrom` and `JitterIsDrawnFrom` say, speeds recomputed |
| Dispatcher.Dispatcher.Register | internal/bandwidth/bandwidth.go:125-132 | adds a zero entry unless there is one, speeds recomputed |
| Dispatcher.Dispatcher.Restore | internal/bandwidth/bandwidth.go:134-160 | sets the entry with negative counts lifted to zero, speeds recomputed |
| Dispatcher.Dispatcher.Unregister | internal/bandwidth/bandwidth.go:162-167 | deletes the entry, speeds recomputed |
| Dispatcher.Dispatcher.UpdatePeers | internal/bandwidth/bandwidth.go:169-186 | sets the peer counts, lifted to zero, creating the entry if needed, speeds recomputed |
| Dispatcher.Dispatcher.DoTick | internal/bandwidth/bandwidth.go:213-238 | the tick of the specification: elapsed time clamped to [0, 2 s], refresh when due, exact credit |
| Dispatcher.Dispatcher.Credit | internal/bandwidth/bandwidth.go:232-237 | every torrent gets the floor of speed times time plus carry and keeps the rest as carry |
| Entries.LoadReplays | internal/store/store.go:288-325 | if replaying the log gives the hashes of the store, it does so after any load: first, same-path replacement, changed announce list, duplicate copy |
| Entries.RemoveReplays | internal/store/store.go:687-714 | and after any removal of an entry |
| Entries.RemovedIsTheLastCopy | internal/store/store.go:683-706 | Removed is emitted for a hash if and only if its last copy goes |
| Entries.LoadTellsExactly | internal/store/store.go:295-324 | a load says Added of its hash exactly if the path did not have that hash, Replaced exactly if only the announce list differs, Removed of the hash before first, and nothing when nothing changed |
| Entries.RemovalTellsExactly | internal/store/store.go:687-714 | a removal says Removed exactly if no other path holds the hash |
| Entries.TransferKeepsHashesExactly | internal/store/store.go:509-547 | a transfer, committed or rolled back, leaves the set of hashes unchanged if and only if the hash was loaded and no entry at either path is the only one of another hash |
| Entries.StaleEntryIsLost | internal/store/store.go:519-526 | a store in which a successful transfer loses a hash, through an entry left at the new path |
| Store.Store.constructor | internal/store/store.go:84-97 | an empty store whose log is right |
| Store.Store.HandledReplays | internal/store/store.go:288-325 | whatever one load or removal did, a log that was right stays right |
| Store.Store.Load | internal/store/store.go:327-336 | what is loaded is what the file's content parses to; missing only if the file is |
| Store.Store.LoadTorrentWithRetry | internal/store/store.go:327-336 | one more try after a failure other than absence, with the same guarantees |
| Store.Store.RecordFailedMeta | internal/store/store.go:413-419 | only the failure of this path may change, and only to the fingerprint its file has now; it does unless a call fails |
| Store.Store.IsRecentlyModified | internal/store/store.go:421-427 | modified less than two seconds ago; what follows from it for a failed file is in `FailureArchivesExactly` |
| Store.Store.HasOtherPathWithInfoHash | internal/store/store.go:645-654 | true exactly if another path holds the hash |
| Store.Store.RemoveTorrentEntry | internal/store/store.go:687-706 | the entry and its fingerprints go; it is to be told exactly when no other path holds the hash |
| Store.Store.RemoveFile | internal/store/store.go:708-714 | the removal of the specification, with its event |
| Store.Store.ArchiveFile | internal/store/store.go:431-447 | on success the content is at a free name in the archive and no longer at the path, on failure it is where it was; no other file changes; without failing calls it is the first free name; it does not end exactly when the search for a name has not |
| Store.Store.HandleLoadFailure | internal/store/store.go:376-411 | no content is ever lost, an entry goes only when its file has, nothing happens for unknown paths; fingerprints on record stay, or are those of files there are, and only the path's own can go; without failing calls it is the specified failure handling; stuck in the search for a name it has changed nothing |
| Store.Store.GiveToArchive | internal/store/store.go:399-411 | the same from the archiving on |
| Store.Store.RemoveArchived | internal/store/store.go:404-410 | the failure is on record for the new name, and the entry of the old path goes with its event |
| Store.Store.LoadFileQuiet | internal/store/store.go:271-286 | emits nothing for a path that was not loaded; without failing calls it is the specified quiet load; stuck in the search for a name it has changed nothing |
| Store.Store.RecordLoadedMeta | internal/store/store.go:277-283 | the fingerprint on record is the old one or that the file has now, and no failure is remembered |
| Store.Store.SetEntry | internal/store/store.go:294-302 | the entry and the fingerprint are set, the failure forgotten |
| Store.Store.EmitLoad | internal/store/store.go:303-324 | emits exactly the events of the replaced or new entry |
| Store.Store.EnterLoaded | internal/store/store.go:293-324 | what was read is entered with the events of the specification |
| Store.Store.LoadFile | internal/store/store.go:288-325 | keeps the log right through success and failure; without failing calls it is the specified load; stuck in the search for a name it has changed nothing |
| Store.Store.HasUnchangedMeta | internal/store/store.go:658-672 | true only if the fingerprint is that of the last load or failure, whatever call fails, and exactly then if its stat does not fail |
| Store.Store.ReadDir | internal/store/store.go:211-223 | the torrent files right in the directory |
| Store.Store.VisitFile | internal/store/store.go:224-234 | one file of a scan: skipped when unchanged, else loaded, quietly or not |
| Store.Store.LoadAll | internal/store/store.go:219-235 | a directory's files are visited in order, unchanged ones skipped; the log stays right, a quiet visit of new paths is silent; a visit that searches for ever is the last one |
| Store.Store.RemoveMissing | internal/store/store.go:237-252 | exactly the entries that were not seen go, with events only when notifying |
| Store.Store.RemoveOne | internal/store/store.go:245-252 | one such removal |
| Store.Store.LoadDir | internal/store/store.go:211-236 | the part of a scan in one directory; a missing archive directory is no error |
| Store.Store.LoadDirs | internal/store/store.go:205-236 | both directories, each once |
| Store.Store.ScanDir | internal/store/store.go:205-254 | a notifying scan keeps the log right whatever call fails; a first quiet scan emits nothing and its hashes are the start of the log; without failing calls it is the skipping scan of the specification, whose effects are in `SkippingScanFindsEveryFile`, `ScanForgetsTheUnseen` and `ScanTells`, or is stuck at a file whose search for a name has no end in sight |
| Store.Store.CopyOrLink | internal/store/store.go:502-507 | content at one of the paths at every moment, no file overwritten; success exactly if the link or all calls of the copy go well; a failed copy stays exactly if, both files opened, its last call fails |
| Store.Store.Enter | internal/store/store.go:514-526 | the torrent is entered at the new path, which becomes its own |
| Store.Store.Settle | internal/store/store.go:528-544 | the torrent ends at the new path if the old file is gone and at the old one if not, with its path equal to its key |
| Store.Store.LeaveOldPath | internal/store/store.go:528-544 | the old file goes and the entry with it, or the new file goes and the entry returns to the old path |
| Store.Store.DroppedExactly | internal/store/store.go:514-544 | fingerprints go at the new path, at the old one when its file is gone, and nowhere else |
| Store.Store.CommitTransfer | internal/store/store.go:514-544 | once the file is at both paths, the entries move, or move back when the old file cannot be removed |
| Store.Store.TransferTorrentFile | internal/store/store.go:509-547 | whatever call fails: content at one of the two paths at every moment, no existing file touched, the torrent's path equal to its key; success and a copy left behind are each exactly decided by which calls fail; the hash set is unchanged exactly under the condition of the two entries; without failing calls it is the transfer of the scan machine |
| Store.Store.TransferInto | internal/store/store.go:567-573 | a move under the first free name; the log stays right when every entry's file is there and the torrent's path holds its hash; stuck in the search for a name it has changed nothing |
| Store.Store.ArchiveTorrent | internal/store/store.go:551-574 | error without an archive directory, nothing to do below it, else the move; the torrent's path is the result; stuck in the search for a name it has changed nothing |
| Store.Store.RestoreTorrent | internal/store/store.go:577-600 | the same for the way back |
| Store.Store.ScheduleLoad | internal/store/store.go:338-343 | a fresh number replaces the pending load of the path |
| Store.Store.CancelPendingLoad | internal/store/store.go:364-368 | the pending load of the path is forgotten |
| Store.Store.FireLoad | internal/store/store.go:353-360 | loads exactly if this is the last load scheduled and not cancelled; the log stays right |
| Store.LoadTwo | internal/store/store.go:288-325 | a store over two files loads both and its log is right |
| Store.StaleEntryRun | internal/store/store.go:509-547 | from a valid store whose log is right, with no failing call, the second file vanishes and the first is moved to its path: the store holds one hash, the listener two |
| Store.ScanLocked | internal/store/store.go:205-254 | a scan that finds the only file locked has its fingerprint on record |
| Store.LockedFileRun | internal/store/store.go:376-385 | a file locked at one scan and readable from then on is not loaded by the next, whereas reading it would; nothing else fails |
| Delivery.EveryDeliveryIsRightExactly | internal/store/store.go:288-325 | whatever order the pending events are sent in, the listener ends with the hashes of the store, if and only if every goroutine that still has something to say about a hash ends with the truth about it, and the listener already knows the hashes nobody is to speak of |
| Delivery.DeliveriesKeepSettled | internal/store/store.go:308-324 | sending events and looking for other copies, in any order and number, keeps such a state |
| Delivery.UnsettledMisleads | internal/store/store.go:708-714 | from any other state some order of sending leaves the listener wrong |
| Delivery.DecisionStaysSettledExactly | internal/store/store.go:687-706 | a load or a removal in a state whose every delivery is right leaves one if and only if no other goroutine is then about to end with the opposite of what is true of a hash the step touches |
| Delivery.DecisionKeepsSettled | internal/store/store.go:295-302 | the same hash by hash; a hash the step does not touch stays settled |
| Delivery.Decided | internal/store/store.go:295-324 | a load whose check for other copies is a section of its own owes exactly the events of the load in one section |
| Delivery.UndisturbedRunsAreRight | internal/store/store.go:288-325 | over every interleaving in which no load or removal touches a hash another goroutine is still to speak of, the listener has the hashes of the store once all is said |
| Delivery.RemovalSpeaksTooLate | internal/store/store.go:708-714 | the last copy of a hash is removed while another path loads it; the Removed is sent after the Added, and the listener loses a hash the store holds |
| Files.FileSystem.MoveFile | internal/store/store.go:465-481 | whatever calls fail: at every moment the content is at source or destination and no other file has changed or appeared; an existing destination is never touched; success, and a copy left next to the source, are each exactly decided by which calls fail |
| Files.WhichFailuresLeaveACopy | internal/store/store.go:465-481 | single failures and what they leave: a failed link alone nothing, a failed removal of the source with a failed rollback the copy, a locked source neither move nor copy |
| Files.FileSystem.MoveByCopy | internal/store/store.go:469-480 | the same for the way by a copy, after the link has failed |
| Files.FailedCloseLeavesACopy | internal/store/store.go:494-499 | a schedule of failing calls, the link and the close, under which a move fails and leaves its copy |
| Files.FileSystem.FinishMove | internal/store/store.go:466-480 | removing the source or rolling the destination back keeps the content at every moment |
| Files.FileSystem.CopyFile | internal/store/store.go:483-500 | an existing destination is never opened, the source is untouched; success exactly if the source is not locked and no call fails; a failed copy stays exactly if, both files opened, its last call fails: the close, or the removal after a failed write |
| Files.FileSystem.UniquePath | internal/store/store.go:449-462 | the search of the specification in every directory: the plain name or the first numbered name that does not exist, or no name within the stats it was given |
| Files.SomeCandidateIsFree | internal/store/store.go:456-461 | among the first n + 1 numbered names some one is not in a given set of n names |
| Files.CandidatesDiffer | internal/store/store.go:457-457 | different numbers give different candidate names |
| Files.CandidateIs | internal/store/store.go:449-462 | the names tried for `stem.ext` are `stem.1.ext`, `stem.2.ext` and so on, right in the directory |
| Files.StemAndExt | internal/store/store.go:450-451 | what follows the last dot is the extension, and what precedes it the stem |
| Entries.CandidatesAreListed | internal/store/store.go:449-462 | the numbered names of a torrent file are torrent files right in the directory, so that the next scan lists them |
| Files.BelowExactly | internal/store/store.go:602-619 | a path lies below a directory exactly when it goes on after the directory and a slash |
| Files.SearchEndsExactly | internal/store/store.go:449-462 | some number of stats suffices if and only if the plain name or some numbered one is found absent |
| Files.NameLimitDecides | internal/store/store.go:449-462 | under a limit on name lengths the search ends if and only if the plain name fits and is free, or one of the first n + 1 numbered names does, n being the number of files |
| Files.TakenNameAtTheLimit | internal/store/store.go:456-461 | for a taken name within one rune of the limit no number of stats suffices |
| Files.UnsearchableDirectory | internal/store/store.go:449-462 | nor does any in a directory whose names cannot be examined |
| Files.SearchEndsSoon | internal/store/store.go:449-462 | where the first n + 1 numbered names can be examined, n + 2 stats suffice for n files |
| Files.FoundOnce | internal/store/store.go:449-462 | a search that ends finds one name, however many stats it might have made |
| Files.FoundIsFirst | internal/store/store.go:456-461 | a search that ends with a numbered name has found the plain one and all smaller numbers taken |
| Scans.SkippingScanRefinesPlainScan | internal/store/store.go:205-254 | over any sequence of file changes, lockings, scans, watched loads, loads overtaken by changes, removals and transfers the skipping scan gives the same hash and announce list per path, the same files and the same events as reading every file, if along the run path, size and mtime determine each file's content and each step fits: what a failure puts on record is true of the content, the file moved to the archive lands under a free name, and what is entered is what the file then tells of |
| Scans.SkipRefines | internal/store/store.go:656-672 | skipping one unchanged file shows the same as reading it again, unless the plain scan would archive it unread |
| Scans.ScanRefines | internal/store/store.go:205-254 | the same for one whole scan whose visits fit |
| Scans.FailRefines | internal/store/store.go:370-411 | failure handling keeps what the fingerprints vouch for, if what it puts on record is true of the content |
| Scans.TransferRefines | internal/store/store.go:509-547 | a transfer keeps what the fingerprints vouch for if its content tells of the torrent it enters |
| Scans.TransferRefinesExactly | internal/store/store.go:514-526 | after a transfer every next visit of any path shows the same in both scans if and only if the moved content tells of the torrent entered |
| Scans.FailedVisitFitsExactly | internal/store/store.go:376-419 | a visit that fails to read a file leaves the scans in agreement, then and at every later visit once all files can be read, if and only if the content is bad and stays, or is that of the entry there is, or the file is too young to be archived, or the same holds of the name it is archived under, and the skipping scan passes by no file that the plain one archives |
| Scans.OvertakenAgreesExactly | internal/store/store.go:288-302 | a load that a change overtakes between the reading and the look at the fingerprint leaves all later visits in agreement if and only if the file, if it is still there, then tells of the entry made of what was read |
| Scans.OverwriteRefines | internal/store/store.go:288-302 | such a load keeps what the fingerprints vouch for |
| Scans.LaterVisitsAgreeExactly | internal/store/store.go:656-672 | from two states that look the same every next visit looks the same if and only if every file that would be skipped tells of its entry, or is bad and stays |
| Scans.CalmRunsAgree | internal/store/store.go:205-254 | on any file system whose links succeed the two scans agree over every run in which size and mtime determine the content, no read of a good file fails and what is entered is what the file then tells of |
| Scans.LockedFileIsForgotten | internal/store/store.go:376-419 | for any good file locked at one scan without an archive directory: the next scan passes it by, the plain one loads it |
| Scans.GoodFileIsArchived | internal/store/store.go:376-411 | any good file that cannot be read for a moment is archived and, if loaded as the last copy, reported removed |
| Scans.OverwrittenFileStaysStale | internal/store/store.go:288-302 | for any file overwritten between its reading and its fingerprint: the next scan keeps the old entry, the plain one enters the new content |
| Scans.LinkingArchivesWell | internal/store/store.go:431-447 | on any file system, with links into the archive and content told by size and mtime alone, what the failure of a bad file puts on record is true; where the search for a name never ends, any absent name stands for the one the source never finds |
| Scans.LinkingLandsWell | internal/store/store.go:431-447 | there every file lands under a free name with a fingerprint that determines its content |
| Scans.ScanForgetsTheUnseen | internal/store/store.go:237-252 | after a scan, skipping or not, the store has entries of paths seen in it only |
| Scans.ScanFindsEveryFile | internal/store/store.go:205-254 | after a scan every torrent file right in one of the directories that can be read and parsed has the entry its content tells of; of the others one that is bad or younger than two seconds stays with its entry as it was, and any other has left the path with its entry |
| Scans.ScanLeavesNoStaleEntry | internal/store/store.go:205-254 | every entry after a scan is that of a torrent file there is, right in one of the directories |
| Scans.SkippingScanFindsEveryFile | internal/store/store.go:205-254 | the same of the scan that skips, where its visits fit |
| Scans.SkippingScanLeavesNoStaleEntry | internal/store/store.go:205-254 | and no stale entry is left by it either |
| Scans.ScanTells | internal/store/store.go:205-254 | a notifying scan tells exactly what it changes: replaying its events from the hashes of the store before gives those after |
| Scans.FailureArchivesExactly | internal/store/store.go:376-419 | a failed file stays if and only if it is in the archive, there is no archive, or it was modified less than 2,000,000,000 ns ago; what is then on record, moved, removed and told |
| Scans.LinkingArchivesFreely | internal/store/store.go:431-447 | moves into the archive by link land beside every other file and keep the content |
| Bundler.CollectModules | frontend/scripts/build.js:33-86 | stops exactly if a reachable file has a fault; otherwise lists each reachable module once, dependencies before dependents if and only if the graph is acyclic, and the dependencies of the entry in the order of their imports unless an earlier one reaches a later one |
| Bundler.FaultExactly | frontend/scripts/build.js:41-69 | which file has which fault: missing, an unsupported export, an external dependency or a renamed import, in that order |
| Bundler.Collector.Visit | frontend/scripts/build.js:37-81 | one visit lists what the file reaches and was not seen, dependencies placed before it and in the order of their imports |
| Bundler.Collector.VisitDeps | frontend/scripts/build.js:72-72 | the loop over the dependencies of a file |
| Bundler.VerifyImports | frontend/scripts/build.js:93-104 | succeeds exactly if every named import names an export of a listed module |
| Bundler.Claim | frontend/scripts/build.js:115-121 | claims each declared name or reports the first one claimed twice |
| Bundler.BundleJS | frontend/scripts/build.js:107-126 | succeeds exactly if no name is declared twice over all modules, and then gives each name its module and each module its place |
| Bundler.LinkingPreservesResolution | frontend/scripts/build.js:93-126 | after a successful build every name a module declares or imports has exactly one declaration in the flat scope, the one it resolved to in its module |
| Bundler.FlatScope | frontend/scripts/build.js:107-126 | the flat scope gives a name to a module if and only if that module is listed and declares it |
| Bundler.FreeNamesAreCaptured | frontend/scripts/build.js:107-126 | a name means the same in a bundled module and in the flat scope if and only if the module declares or imports it or no bundled module declares it |
| Bundler.Build | frontend/scripts/build.js:33-126 | the build goes through if and only if no reachable module has a fault or a repeated declaration, every named import is exported by a reachable target, and no two reachable modules declare a name in common |
| Bundler.CaptureRun | frontend/scripts/build.js:33-126 | the build accepts two modules of which one uses a name it neither declares nor imports, and gives that name to the other |
| Bencode.ReadValue | internal/tracker/bencode.go:50-127 | the reader with its loops computes the specified parse on arbitrary bytes, without an index out of range |
| Bencode.SuccessConsumesPrefix | internal/tracker/bencode.go:50-127 | success consumes a non-empty prefix |
| Bencode.AppendedBytesStayUnread | internal/tracker/bencode.go:50-127 | bytes appended to an accepted input only extend the remainder |
| Bencode.ReaderInvertsEncoder | internal/tracker/bencode.go:50-127 | parsing encode(w) + s gives the meaning of w and s for every written value with int64 integers, and an error if and only if the nesting passes 200 |
| Bencode.ValueRoundTrip | internal/tracker/bencode.go:50-127 | every value of int64 integers and nesting at most 200 is recovered from its encoding followed by anything |
| Bencode.KnownForms | internal/tracker/bencode.go:50-127 | numbers, texts, lists and dictionaries are read in the forms of BEP 3 |
| Bencode.DepthIsLimited | internal/tracker/bencode.go:51-53 | 200 levels around an empty list are read and 201 are not |
| Bencode.TruncatedIsRefused | internal/tracker/bencode.go:50-127 | reading a value cut short fails, wherever the cut |
| Bencode.LastEntryWins | internal/tracker/bencode.go:68-90 | a repeated key of a dictionary keeps its last value |
| Bencode.FieldsAreFound | internal/tracker/bencode.go:129-138 | the number a reply gives last for a key is what its field becomes, and anything else gives zero |
| Bencode.ParseResponse | internal/tracker/bencode.go:22-48 | which replies are accepted and what each field becomes |
| Bencode.OtherSeedersExact | internal/tracker/bencode.go:39-42 | the seeder count is `complete` less one, not below zero, except for the one int64 value whose decrement wraps |
| Numerals.ParseIntExactly | internal/tracker/bencode.go:58-67 | a written number is read if and only if it fits the width, with or without a plus sign |
| Numerals.ParseUintExactly | internal/tracker/client.go:293-310 | the same of unsigned numbers in any base up to 16 |
| UrlEncode.EncodeBytes | internal/clientemu/urlencode.go:25-31 | the loop gives the specified encoding |
| UrlEncode.EncodeString | internal/clientemu/urlencode.go:33-52 | a string is sent as one byte per rune up to 0xff and as its UTF-8 bytes otherwise |
| UrlEncode.EncodingIsLossless | internal/clientemu/urlencode.go:25-63 | decoding the encoding gives the bytes back when the percent sign is not excluded |
| UrlEncode.LosslessExactly | internal/clientemu/urlencode.go:54-63 | the encoding is invertible on all inputs if and only if the pattern does not exclude the percent sign |
| UrlEncode.EncodedHasNoAmpersand | internal/clientemu/urlencode.go:54-63 | an encoded value never splits a query |
| UrlEncode.EncodedByteIs | internal/clientemu/urlencode.go:54-63 | a byte the pattern excludes is sent as it is, any other as a percent sign and two digits of the wanted case |
| UrlEncode.NarrowRunes | internal/clientemu/urlencode.go:33-52 | a peer id of runes up to 0xff is sent as one byte per rune |
| UrlEncode.NarrowIsSent | internal/clientemu/urlencode.go:33-52 | a text of any runes is sent rune by rune: one byte up to 0xff, its UTF-8 bytes beyond |
| UrlEncode.StrayByteIsSent | internal/clientemu/urlencode.go:33-52 | bytes that start no rune are sent as they are |
| UrlEncode.EveryRuneDecodes | internal/clientemu/urlencode.go:33-52 | the decoder of section 3 of RFC 3629 inverts its encoder for every scalar value |
| UrlEncode.RawRunesDecodeExactly | internal/tracker/client.go:250-270 | the text of a peer id sent without encoding decodes to one byte per rune if and only if every rune is below 0x80 and none is a percent sign |
| Query.CollapseAmpersands | internal/clientemu/types.go:312-317 | terminates without two adjacent ampersands; each run has become one |
| Query.CollapsingKeepsTheText | internal/clientemu/types.go:312-317 | only ampersands go |
| Udp.ParseUDPQuery | internal/tracker/client.go:250-270 | the loop computes the specified map, the error cases included |
| Udp.QueryRoundTrip | internal/tracker/client.go:250-270 | parsing a rendered query gives each parameter its decoded text |
| Udp.DecodedLookup | internal/tracker/client.go:250-270 | the value of a key is the text its parameters agree on |
| Udp.LooseParts | internal/tracker/client.go:250-270 | empty parts are skipped, and a part without an equals sign is a key with an empty text |
| Udp.BadKeyStays | internal/tracker/client.go:250-270 | a key that cannot be decoded is taken as it stands |
| Udp.BadTextIsReported | internal/tracker/client.go:250-270 | the first text that cannot be decoded fails the query, reported with its key |
| Udp.AcceptedExactly | internal/tracker/client.go:272-340 | which values are accepted, in the texts of every field, and what becomes of a missing numwant or key |
| Udp.EventIsNumbered | internal/tracker/client.go:342-353 | each event of BEP 15 is sent as its number in the list none, completed, started, stopped, and every other text as 0 |
| Udp.BuildUDPAnnounceRequest | internal/tracker/client.go:272-332 | the buffer filled in place is the specified 98-byte packet, or the error of the first bad field; the event code is in `EventIsNumbered` |
| Udp.CheckedIsPackable | internal/tracker/client.go:272-332 | accepted values always fit the packet |
| Udp.PacketRoundTrip | internal/tracker/client.go:315-331 | decoding the packet as BEP 15 lays it out recovers every field, the signed numwant and the 64-bit counters included |
| Udp.AnnounceSurvivesTheWire | internal/tracker/client.go:250-353 | an announce rendered into a query in any order of parameters, peer id and key percent-encoded or not, parsed and packed arrives with every field, the event as its number in the list of BEP 15, if the encoder excludes neither percent sign nor ampersand and a peer id that is not encoded is ASCII text without them |
| Udp.EveryAnnounceRenders | internal/clientemu/types.go:233-286 | every announce has a rendering, so the law of the wire speaks of all of them |
| Udp.RawPeerSurvivesExactly | internal/clientemu/types.go:251-256 | a peer id that is not encoded can be read back from its parameter if and only if it is ASCII text without percent sign and ampersand |
| Regex.ParseClass | internal/clientemu/regex.go:120-139 | the loop gives the specified choices of a class |
| Regex.ParseRepeat | internal/clientemu/regex.go:103-118 | the loop gives the specified repeat count and position |
| Regex.UnescapeRunes | internal/clientemu/regex.go:148-157 | the loop removes one level of backslashes |
| Regex.FindClassEnd | internal/clientemu/regex.go:55-72 | the end of a class, escapes skipped |
| Regex.ParseRegexPattern | internal/clientemu/regex.go:49-101 | the loops give the specified tokens, the error cases included |
| Regex.ClassMeansItsItems | internal/clientemu/regex.go:120-146 | a class of single runes and spans, escaped or not, a dash at its end included, means the runes of its items in order, and is refused if and only if some span runs backwards |
| Regex.PatternMeansItsPieces | internal/clientemu/regex.go:49-157 | a pattern of classes, groups and letters, counted or not, escaped or not, parses to the tokens its pieces mean, and is refused if and only if some span runs backwards |
| Regex.ParserInvertsPrinter | internal/clientemu/regex.go:49-157 | parsing what is written for a token list gives the list back, whatever runes its classes and groups hold, a closing parenthesis in a group apart |
| Regex.KnownPattern | internal/clientemu/regex.go:49-157 | what the printer writes for a counted class, a group, an escaped bracket and a dash |
| Regex.OpenEndsAreRefused | internal/clientemu/regex.go:55-101 | a class or group that is not closed and a backslash at the end are refused, wherever they come |
| Regex.BadCountIsOne | internal/clientemu/regex.go:103-118 | a count that is no positive number is one and is passed over; one that is not closed is left to be read as a letter |
| Generators.GenerateRegex | internal/clientemu/regex.go:31-47 | the loops write the specified draw |
| Generators.WrittenIs | internal/clientemu/regex.go:31-47 | a rune that is a scalar value is written as it is, any other as U+FFFD |
| Generators.RegexFollowsTokens | internal/clientemu/regex.go:31-47 | every draw has the tokens' length and follows them rune by rune |
| Generators.EveryMatchCanBeDrawn | internal/clientemu/regex.go:31-47 | and every string that follows them can be drawn |
| Generators.SlotsAreThePlaces | internal/clientemu/regex.go:31-47 | a draw has as many runes as the repeat counts of the tokens add up to |
| Generators.GenerateHash | internal/clientemu/types.go:506-517 | the loop writes the specified hexadecimal digits |
| Generators.HashDrawsAreHexTexts | internal/clientemu/types.go:506-517 | a HASH draw is a text of upper-case hex digits of its length, and each such text can be drawn |
| Generators.TrimIsExact | internal/clientemu/types.go:506-517 | dropping leading zeros drops them all and nothing else |
| Generators.GeneratePool | internal/clientemu/types.go:546-564 | the loop writes prefix, random digits and check digit |
| Generators.DrawPoolDigits | internal/clientemu/types.go:546-558 | all digits but the last, and their sum |
| Generators.PoolDigitsSumToZero | internal/clientemu/types.go:546-564 | the digits of the suffix always sum to 0 modulo the base |
| Generators.PoolDrawsAreChecked | internal/clientemu/types.go:546-564 | a pool draw is the prefix and then the pool's runes for digits that are the random ones and a last one that brings their sum to 0 modulo the base |
| Generators.CountPeerIdBytes | internal/clientemu/types.go:378-387 | counts runes, and fails on one above 0xff |
| Generators.AcceptableExactly | internal/clientemu/types.go:363-387 | a sample is acceptable if and only if it has twenty runes, each of which is a byte |
| Generators.OneSampleFixesTheLength | internal/clientemu/types.go:363-387 | for REGEX, HASH and pool generators one acceptable sample fixes the length of every draw at 20 runes |
| Generators.AlwaysAcceptableExactly | internal/clientemu/types.go:363-387 | every draw passes the construction check if and only if the generator has 20 slots, all of them up to 0xff, or 20 hexadecimal digits with leading zeros kept, or a pool of bytes |
| Generators.LeadingZeroDropBreaksTheLength | internal/clientemu/types.go:506-517 | with leading zeros dropped an acceptable sample and an empty draw come from one generator |
| Generators.SampleMissesWideRune | internal/clientemu/types.go:363-376 | an accepted REGEX generator that can draw an unacceptable id |
| Generators.Generator.constructor | internal/clientemu/types.go:332-361 | a generator that never refreshes draws its value at once |
| Generators.NewGenerator | internal/clientemu/types.go:332-361 | a timed generator whose period is below one second is refused, and no other; the period is a wrapped int64 product |
| Generators.Generator.Generate | internal/clientemu/types.go:448-459 | the draw of the algorithm |
| Generators.Generator.Validate | internal/clientemu/types.go:363-376 | accepts exactly if its sample has 20 runes up to 0xff |
| Generators.Generator.Get | internal/clientemu/types.go:389-446 | every value ever given is a draw, of 20 runes once a sample was accepted; for each refresh mode what is given, kept and forgotten: a timed value is redrawn exactly when its period has passed |
| Generators.Generator.GetGlobal | internal/clientemu/types.go:394-411 | the modes with one value for all torrents |
| Generators.Generator.Cached | internal/clientemu/types.go:413-428 | the value of a torrent is drawn once and then kept |
| Generators.Generator.DropExpired | internal/clientemu/types.go:429-436 | exactly the values not touched for two hours go |

## Left out

- Scheduler.Scheduler.PersistState: gives the records; encoding, temporary file, fsync and rename are left out, and a write is atomic.
- Scheduler.LoadPersistedState: reads records whose ids are hashes; JSON, the hex text and the rejection of ill-formed ids are left out.
- Files.FileSystem.UniquePath: takes the number of stats it may make and gives up after that many; the source goes on for ever, and `SearchEndsExactly` says when some number suffices.
- Store.Store.ArchiveFile: no retry when another process creates the chosen name meanwhile; other processes change files only between operations.
- Store.Store.LoadTorrentWithRetry: without the pause before the second try.
- Announcer.Announcer.Body: the announcer's fields are not shared with a concurrent stopped announce, which may also move the tracker index.
- Interleaving.StepKeepsInv: `tryAdd`, the section after a success and `removeActive` are one step each, as they hold the scheduler lock; upload counts (they are in `uploads.dfy`), the slot limit and the store are not part of this machine.
- Uploads.CountFallsExactly: counts are unbounded and not negative; slots, completed flags, stopped announces and the encoding of the state file are not part of this machine.
- Udp.BuildUDPAnnounceRequest: the transaction id and the parser of IPv4 texts are parameters.
- Bencode.ParseResponse: which bytes count as blank around a reply is a parameter.
- Store.Store: each operation is atomic here; loads and removals whose sections and events interleave are in `delivery.dfy`, without the files, the fingerprints, quiet loads and transfers. The debounce timers of the watcher are calls of `FireLoad` in any order; discarding events at shutdown and full event buffers are left out.
- Scans.Transferred: a transfer that is rolled back is not a step of the scan machine.
- Scans.Overtaken: files change between reading and fingerprint in watched loads only, and between the visits of one scan they do not change but by the scan itself; a file is locked or not for a whole step.
- Paths are clean and absolute, and the directories are not the root, so that joining and `isSubPath` are string operations.
- Cancelled contexts in the loops of `fillSlots` and `stopOverflow`: they only end the loops early.
- The ratio monitor's loop over a snapshot of announcers: each of its calls is `CompleteTorrent`.
- `checkArchiveFailure` and `checkRestoreSuccess`: thresholds in front of `ArchiveTorrent` and `RestoreTorrent`.
- Generators.Generator.Generate: without the change of letter case that keys, but not peer ids, may ask for.
- The digit-range generator, header placeholders and the templating of `RenderQuery`: text handling of its own; a rendered query is any list of parameters that meets `Renders`.
- `validateUDPResponse` and the reading of UDP replies: a list of comparisons in front of socket code.
- IEEE rounding of speeds, ratios and credits.
- HTTP, sockets, compression, the web interface, CSS bundling, logging and the validation of configuration files.
- The regular expressions with which the bundler reads sources; the model starts from declarations, exports, imports and dependencies.
