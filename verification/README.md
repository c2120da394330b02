# Verified models of the personal-hub cores

The Dafny files model the parts of personal-hub that fold an unbounded history into a summary, and prove what
those summaries mean for every history.

| files | what they model |
|---|---|
| `CoupangSlot`, `CoupangWorld`, `CoupangHistory`, `CoupangText` | pairing of Coupang stock rises and falls into "sold out again" and "open now" rows |
| `BootSessions`, `BootHistory` | boot sessions rebuilt from the start/death log, and the clean-shutdown check |
| `FileTail` | incremental tailing of one log file |
| `RunnerMembership`, `RunnerWatching` | the timed set of followed runners and the sources it keeps in the tailer |
| `CollectPaging` | paging over several merged sources that are cut to prefixes first |
| `EntitySources`, `EntitySourceService` | primary-source and source-count bookkeeping with commit and rollback |
| `ConfigMerge`, `ConfigUpdate` | recursive merge of configuration trees and the guarded update |
| `DailyStats` | daily grouping of proxy logs and monitoring events over date ranges |
| `AlertRules` | operator overrides of alert rules: versions, locked rules, effective view |
| `MonthArithmetic` | month addition with day clamping, and relative date tokens |
| `StableSort`, `TextOrder`, `Options`, `Numbers` | Python's stable sort, string order, `None`, and `max`/`min` |

Every routine that changes state is a method on mutable data, as in the program; its contract equates the new state
with a function of the old one, and the theorems are about that function. Time is a count of whole seconds
(`MonthArithmetic`: microseconds; runner clock: `real`). Tables are maps or sequences, a transaction is a saved copy
of the tables, a file is its text, and the clock, the runner list, keys handed out by the database and the order of
ties are parameters.

## Where code and documentation differ, and what is false

Each property that fails has a concrete input and the exact condition under which it holds.

- `FileTailer.read_new_lines` says that a missing file resets the position. The code only resets on a file shorter
  than the position: `FileTail.MissingFileKeepsPosition` shows a file that is then not read in full,
  `FileTail.ReplacedFileIsReadInFullIff` says exactly when a replaced file is.
- `had_clean_shutdown` and the boot history can disagree about a process, because the check reads the file backwards
  and the history reads it by time, and because a death can be logged after another start:
  `BootSessions.AnswersAgreeIff` gives the exact condition for every log, `BootSessions.MisstampedEntriesDisagree` and
  `BootSessions.LateDeathDisagrees` give logs. Likewise "no clean shutdown" means a session left open or ended by
  inference exactly when `BootSessions.UncleanMeansOpenOrInferredIff` says, which covers every log in time order.
- A session's recorded uptime need not be its length: `BootSessions.ReportedUptimeWins`, and exactly when it is:
  `BootSessions.UptimeIsLengthUnlessReported`.
- The crawl history pages by slicing two pages of every source: `CollectPaging.ServedPageIsFullIff` says exactly when
  a page is right, `CollectPaging.ThirdPageOfOneSourceIsLost` shows the page that is lost.
- Runners whose log names yield the same short id (also the empty one) share their source names. One refresh loses a
  source exactly when `RunnerMembership.SourceLostIff` says, and puts a joining runner on its own path exactly when
  `RunnerMembership.JoinsOnItsPathIff` says. Runs from an empty table on which a known runner is read from another's
  path, or from nothing: `RunnerMembership.SharedShortIdShadows`, `RunnerMembership.SharedShortIdStarves`.
- A read that has to stop inside a line gives that line in two parts: `FileTail.HalfLineIsBroken`;
  `FileTail.TailingIsExactIff` counts the extra lines of every run of polls and says exactly when there are none.
- The configuration merge is not associative in general: `ConfigMerge.MergeDoesNotAssociate`, and exactly when it is:
  `ConfigMerge.MergeAssociatesIff`.
- The field check of the configuration update accepts a section given as a list or text. If the settings validator
  accepts the merged tree, the stored hash goes with the section: `ConfigUpdate.ListSectionReplacesAll`, and exactly
  when the hash is kept: `ConfigUpdate.HashKeptIff`.
- With an unknown stock count "last minus lowest" can fail: `CoupangSlot.UnknownStockLosesOpens`. What holds for every
  stream is `CoupangSlot.OpenNowIsLargestGain`; exactly when the closed form holds is `CoupangSlot.LastMinusLowestIff`
  for every stream that ends with a count, and `CoupangSlot.GapIsHarmlessIff` in terms of the counts around one gap.
- `add_months` is monotone on dates but not with the time of day: `MonthArithmetic.TimeOfDayCanTurnRound`, and exactly
  when the order turns round: `MonthArithmetic.TimeOfDayTurnsRoundIff`.

## Model

| member | source | states |
|---|---|---|
| CoupangText.SlotKeySeparates | app/routes/monitoring_events.py:132-137 | two observations share a slot exactly when schedule (missing and 0 being one), date and label agree |
| CoupangText.SlotKeyText | app/routes/monitoring_events.py:132-137 | the text of a slot key: id, date and label between bars, what is missing left empty |
| CoupangText.HistoryIdText | app/routes/monitoring_events.py:162-163 | the text of a row id: prefix, slot key, event id on at least ten digits, ordinal on at least six |
| TextOrder.AtMostMeaning | app/routes/monitoring_events.py:334-334 | how row ids and rule ids are compared: by the first character where they differ, a prefix first |
| CoupangText.HistoryIdInjective | app/routes/monitoring_events.py:162-163 | slot key, event id and ordinal can be read back from a row id |
| CoupangSlot.QueueIsTailOfOpens | app/routes/monitoring_events.py:197-219 | the pending queue is always the not yet closed tail of the opens, ordinals running 1..n |
| CoupangSlot.FirstInFirstOut | app/routes/monitoring_events.py:197-229 | closed rows are opens 1..c in order, the queue is c+1..n: every open gives exactly one row, first in first out |
| CoupangSlot.RowsAreOpens | app/routes/monitoring_events.py:276-332 | row i of a slot shows open i; the closed rows come first, the others carry the last listing and cutoff |
| CoupangSlot.OpenedAtItsStep | app/routes/monitoring_events.py:276-296 | a row carries the time and the event of the observation that opened it; each observation opens as many rows as it records places more |
| CoupangSlot.ClosedAtItsStep | app/routes/monitoring_events.py:285-317 | a closed row carries the time of the observation that closed it and the listing before it, and never changes |
| CoupangSlot.StepIsReflectedWalk | app/routes/monitoring_events.py:280-308 | an observation moves the queue length by the change it records, reflected at zero (with counts on both sides the stock difference); an uncounted sell-out empties it |
| CoupangSlot.QueueIsReflectedWalk | app/routes/monitoring_events.py:280-317 | the same after any stream, with or without counts |
| CoupangSlot.OpenNowIsLargestGain | app/routes/monitoring_events.py:276-333 | for every stream, open rows number the largest sum of recorded changes over a stretch to the end without an uncounted sell-out |
| CoupangSlot.WalkOverCounts | app/routes/monitoring_events.py:280-296 | over a counted stretch, whatever came before, the queue ends at last stock minus the lower of its lowest stock and the level it started from |
| CoupangSlot.OpenNowIsLastMinusLowest | app/routes/monitoring_events.py:276-333 | open rows number last stock minus lowest stock ever seen |
| CoupangSlot.OpensAreRises | app/routes/monitoring_events.py:280-289 | opens number the sum of the stock rises |
| CoupangSlot.CountedRows | app/routes/monitoring_events.py:276-333 | all, closed and open row counts in closed form; none open when the slot ends at stock 0 |
| CoupangSlot.LastMinusLowestIff | app/routes/monitoring_events.py:276-333 | for every stream that ends with a count, exactly when open rows number last minus lowest stock: when the lowest stock implied by the recorded changes is the lowest seen |
| CoupangSlot.GapIsHarmlessIff | app/routes/monitoring_events.py:276-333 | exactly when the closed form survives a stretch of unknown counts, in terms of the counts before and after it and whether the slot was seen available |
| CoupangSlot.UnknownStockLosesOpens | app/routes/monitoring_events.py:285-309 | a stream with an unknown count that ends one above its lowest stock without any row |
| CoupangSlot.ClosesAfterOpening | app/routes/monitoring_events.py:208-229 | on time-ordered observations no row closes before it opens, the clamp at zero never fires, rows open and close in ordinal order |
| CoupangWorld.ReplayIsPerSlot | app/routes/monitoring_events.py:250-317 | after any interleaving a slot's state and closed rows are those of its own observations |
| CoupangWorld.SlotsAreIndependent | app/routes/monitoring_events.py:250-333 | a slot's rows are exactly, in order, the rows of its own stream, for every interleaving |
| CoupangWorld.AloneIsSlot | app/routes/monitoring_events.py:250-333 | run on one slot's stream the routine yields that slot's rows and nothing else |
| CoupangWorld.RowIdsUnique | app/routes/monitoring_events.py:162-180 | no two rows of any slots share a public id |
| CoupangWorld.PublishedIsSortedRows | app/routes/monitoring_events.py:334-335 | the published list holds every row once, later opening times first, larger ids first among equal times, ids unique |
| CoupangWorld.PublishedPerSlot | app/routes/monitoring_events.py:319-335 | a slot's part of the published list is the published list of its own stream |
| CoupangWorld.InterleavingIsInvisible | app/routes/monitoring_events.py:232-335 | two interleavings of the same per-slot streams publish the same list |
| CoupangHistory.IncludedMeansNotBegun | app/routes/monitoring_events.py:140-148 | a schedule is shown exactly while its day has not begun |
| CoupangHistory.MeasuredUntil | app/routes/monitoring_events.py:151-159 | the end of observation: now, or a minute before the schedule's day if that is earlier |
| CoupangHistory.SlotState.constructor | app/routes/monitoring_events.py:260-274 | the first observation only sets the baseline |
| CoupangHistory.SlotState.EnqueuePendingOpen | app/routes/monitoring_events.py:197-205 | appends one open with the next ordinal |
| CoupangHistory.SlotState.ClosePendingOpens | app/routes/monitoring_events.py:208-229 | closes the oldest opens, as many as asked and available |
| CoupangHistory.SlotState.Update | app/routes/monitoring_events.py:276-317 | one known slot's observation has the effect of the slot step; the inner count comparison is dead |
| CoupangHistory.SlotState.DrainOpen | app/routes/monitoring_events.py:319-332 | every open left over becomes one open row |
| CoupangHistory.Accept | app/routes/monitoring_events.py:255-274 | one observation on the dictionary of aliased slot objects |
| CoupangHistory.AcceptEvent | app/routes/monitoring_events.py:250-317 | one event's labelled slots in order |
| CoupangHistory.DrainStates | app/routes/monitoring_events.py:319-332 | leftovers of all slots in dictionary order |
| CoupangHistory.ComputePublicHistoryPairs | app/routes/monitoring_events.py:232-335 | the routine returns the published list of the events' observations |
| CoupangHistory.ObservationsInPlace | app/routes/monitoring_events.py:236-258 | every labelled slot of a schedule whose day has not begun is read once, at its place in event and slot order, and nothing else is |
| CoupangHistory.ObservationsOf | app/routes/monitoring_events.py:90-105 | an observation is made exactly when such a slot gives it, with that slot's key, names, availability, count, time and event |
| CoupangHistory.ObservationsInTimeOrder | app/routes/monitoring_events.py:934-935 | events queried by time give observations in time order |
| CoupangHistory.PublishedDurations | app/routes/monitoring_events.py:208-229 | published closed rows last from open to close, never negative |
| CoupangHistory.PublishedOpenCount | app/routes/monitoring_events.py:319-335 | for every stream, the published open rows of a slot are those left in its queue, and no row is lost or added |
| CoupangHistory.PublishedOpenNow | app/routes/monitoring_events.py:276-335 | for known stock, published open rows of a slot number last minus lowest stock, all rows the rises |
| BootSessions.OnlyLastIsOpen | app/core/death_log.py:237-306 | one session per start; at most the last one is open |
| BootSessions.ClosedIsFinal | app/core/death_log.py:283-306 | a closed session is never rewritten |
| BootSessions.SecondDeathIgnored | app/core/death_log.py:283-292 | a repeated or unmatched death changes nothing |
| BootSessions.SessionFate | app/core/death_log.py:240-306 | a session is fixed by its start and the first later start or death of its process |
| BootSessions.SessionsDisjoint | app/core/death_log.py:235-306 | start <= end <= next start |
| BootSessions.SpanIsConserved | app/core/death_log.py:308-331 | session lengths and the recorded restart gaps fill the span from the first start to the last end, or to now while the last session runs |
| BootSessions.UptimeIsLengthUnlessReported | app/core/death_log.py:253-323 | a recorded uptime is the session's length, except exactly when the death that ended it reported another |
| BootSessions.SessionTells | app/core/death_log.py:247-336 | every field of a finished session from the log: its start entry, the entry that ended it and the next start |
| BootSessions.ReportedUptimeWins | app/core/death_log.py:294-305 | a session whose recorded uptime is not its length |
| BootSessions.FinishedStatuses | app/core/death_log.py:308-336 | all but the last are restarted with an unclamped gap, the last is running or stopped |
| BootSessions.NewestSessionIsLastStart | app/core/death_log.py:244-277 | the newest session of a process belongs to its last start |
| BootSessions.TimelineInOrder | app/core/death_log.py:217-235 | whatever its order, a log is read in time order, every entry once, those of one moment in file order; a log in time order is read as it stands |
| BootSessions.UncleanMeansOpenOrInferredIff | app/core/death_log.py:211-377 | no clean shutdown in the file means that the newest session by time is open or closed by inference, except exactly when its own death is the first entry to end it; never an exception in a log in time order |
| BootSessions.AnswersAgreeIff | app/core/death_log.py:211-377 | for every log, exactly when the clean-shutdown check on the file and the boot history by time agree about a process; in time order, unless the death came late |
| BootSessions.LateDeathDisagrees | app/core/death_log.py:235-377 | a log in time order on which they disagree |
| BootSessions.MisstampedEntriesDisagree | app/core/death_log.py:235-377 | two-entry logs out of time order on which they disagree, either way |
| BootHistory.SessionRecord.constructor | app/core/death_log.py:260-275 | a new session record |
| BootHistory.SessionRecord.Supersede | app/core/death_log.py:247-256 | closing by inference, in place |
| BootHistory.SessionRecord.Die | app/core/death_log.py:294-305 | closing by a death entry, in place |
| BootHistory.SessionRecord.Finish | app/core/death_log.py:308-336 | status, gap and attention flag, in place |
| BootHistory.LatestOpen | app/core/death_log.py:285-289 | the reverse scan finds the last open session, of a process if asked |
| BootHistory.EndOpenSession | app/core/death_log.py:245-258 | ends the open session and empties the map of open sessions |
| BootHistory.OnStart | app/core/death_log.py:244-278 | list and aliased map after a start show the session step |
| BootHistory.OnDeath | app/core/death_log.py:280-306 | the same after a death; the scan for unmapped open sessions never finds one |
| BootHistory.Reconstruct | app/core/death_log.py:237-306 | the records show the fold of the log |
| BootHistory.FinishInPlace | app/core/death_log.py:308-339 | every record is finished against its successor |
| BootHistory.BuildBootHistory | app/core/death_log.py:211-346 | sorted log in, finished sessions out, newest start first, cut to the limit |
| BootHistory.HadCleanShutdown | app/core/death_log.py:351-377 | the reverse scan says no exactly when the file holds a start of the process with no start and no death of it after |
| BootHistory.LimitKeepsNewest | app/core/death_log.py:341-346 | newest start first; what a limit cuts off started no later than what it keeps; a negative limit counts from the end |
| BootHistory.HistoryOfEveryLog | app/core/death_log.py:235-346 | for every log, one session per start, newest first, the limit keeping the newest; the sessions it shows are ordered and disjoint |
| FileTail.CutIsHarmlessIff | app/log_viewer/follower.py:161-169 | reading in two parts gives the same lines exactly when the cut is not inside a line |
| FileTail.LinesArePieces | app/log_viewer/follower.py:106-169 | the lines are exactly the longest stretches without a break, in order and unchanged |
| FileTail.BreakCharacters | app/log_viewer/follower.py:106-169 | which characters end a line, when the tail is read and when new text is |
| FileTail.LinesHoldAllText | app/log_viewer/follower.py:106-169 | the lines hold every character that is no line break |
| FileTail.FileTailer.constructor | app/log_viewer/follower.py:124-135 | position at the end, last lines buffered |
| FileTail.LastLinesAreLast | app/log_viewer/follower.py:100-109 | the buffered lines are the last ones of the file, as many as asked for and available |
| FileTail.MissingIsEmpty | app/log_viewer/follower.py:124-135 | a file missing at construction is tailed like an empty one |
| FileTail.FileTailer.ReadNewLines | app/log_viewer/follower.py:137-169 | one poll: buffer first, then the text after the position, restarting on a shrunken file |
| FileTail.TailingIsExactIff | app/log_viewer/follower.py:124-169 | over any polls of a growing file: the last initial lines and then every later line, exactly when no read had to stop inside a line; each one that did gives one line too many |
| FileTail.HalfLineIsBroken | app/log_viewer/follower.py:161-169 | two polls between which a line is finished return it in two parts |
| FileTail.TailingIsExact | app/log_viewer/follower.py:124-169 | no gap and no repeat when every poll sees the file at a line end |
| FileTail.ReplacedFileIsReadInFullIff | app/log_viewer/follower.py:148-164 | exactly when a replaced file is read in full, also after polls that found none |
| FileTail.MissingFileKeepsPosition | app/log_viewer/follower.py:137-164 | a file that was missing for a poll and is not read in full afterwards |
| RunnerMembership.RefreshKeepsBooks | app/log_viewer/follower.py:260-309 | one refresh keeps the books; after an effective one grace is known minus current |
| RunnerMembership.GraceIsKnownMinusCurrent | app/log_viewer/follower.py:270-309 | the same in every reachable state |
| RunnerMembership.AbsentSinceMeaning | app/log_viewer/follower.py:294-303 | what the start of an absence is, in terms of the refreshes |
| RunnerMembership.StaleTimeIsAbsence | app/log_viewer/follower.py:295-302 | the recorded grace start is the start of the current absence |
| RunnerMembership.DroppedIffAbsentForGrace | app/log_viewer/follower.py:295-309 | a runner is dropped exactly when every effective refresh for thirty seconds missed it |
| RunnerMembership.DroppedAfterThirtySeconds | app/log_viewer/follower.py:249-309 | a dropped runner was missed by every effective refresh since one at least thirty seconds before |
| RunnerMembership.StillInGrace | app/log_viewer/follower.py:249-309 | runs on which a runner missed for less than thirty seconds is still known |
| RunnerMembership.EffectiveIff | app/log_viewer/follower.py:265-268 | a refresh takes effect exactly when ten seconds have passed since the last that did, or since zero |
| RunnerMembership.RefreshOf | app/log_viewer/follower.py:260-309 | one effective refresh from one runner's side: known, in grace since when, under which short id |
| RunnerMembership.LastListingCounts | app/log_viewer/follower.py:272-272 | of several listings of one runner the last counts |
| RunnerMembership.GivesMeaning | app/log_viewer/follower.py:276-287 | log files go under `PR:` and the short id, streams under `PS:`, when a path is given |
| RunnerMembership.EffectiveSpacing | app/log_viewer/follower.py:265-268 | effective refreshes are at least the interval apart |
| RunnerMembership.FourMissesDrop | app/log_viewer/follower.py:265-309 | four consecutive misses drop a runner |
| RunnerMembership.SourceLostIff | app/log_viewer/follower.py:303-306 | a source is taken away exactly when an expiring runner has its short id |
| RunnerMembership.SharedShortIdLosesSource | app/log_viewer/follower.py:279-306 | when a runner expires, one still known under its short id is left without sources |
| RunnerMembership.SharedShortIdStarves | app/log_viewer/follower.py:256-309 | a run from the start that leaves a known, listed runner without sources |
| RunnerMembership.SharedShortIdShadows | app/log_viewer/follower.py:203-287 | a run from an empty table that leaves a known runner on another's path |
| RunnerMembership.RefreshKeepsFollowing | app/log_viewer/follower.py:188-309 | with distinct short ids one refresh keeps every known runner's entries, on the paths it was first seen with, and leaves none of a dropped one |
| RunnerMembership.JoinersName | app/log_viewer/follower.py:203-309 | what a joining runner finds under its names, short ids distinct or not |
| RunnerMembership.JoinsOnItsPathIff | app/log_viewer/follower.py:203-309 | exactly when a joining runner is followed on its own path, unless runners joining with it dispute the name |
| RunnerMembership.FollowedOverRun | app/log_viewer/follower.py:188-309 | over any run with distinct short ids and any starting table: every known runner has its entries, an entry under a runner's name is a known runner's first-seen path or was there from the start, other entries never change |
| RunnerMembership.EveryKnownRunnerIsFollowed | app/log_viewer/follower.py:188-309 | a tailer that starts without runner entries holds, under the runners' names, exactly the first-seen paths of the known runners |
| RunnerWatching.MultiTailer.AddSource | app/log_viewer/follower.py:188-210 | adds a source unless the name is taken and not to be replaced |
| RunnerWatching.MultiTailer.RemoveSource | app/log_viewer/follower.py:212-214 | removes a source if present |
| RunnerWatching.RunnerWatcher.AddRunner | app/log_viewer/follower.py:276-287 | one new runner |
| RunnerWatching.RunnerWatcher.AddNew | app/log_viewer/follower.py:274-287 | all new runners, in any order |
| RunnerWatching.RunnerWatcher.CancelGrace | app/log_viewer/follower.py:289-292 | returning runners leave grace |
| RunnerWatching.RunnerWatcher.Miss | app/log_viewer/follower.py:296-309 | one missing runner enters grace or is dropped with its sources |
| RunnerWatching.RunnerWatcher.MissAll | app/log_viewer/follower.py:294-309 | all missing runners, in any order |
| RunnerWatching.RunnerWatcher.RefreshTailer | app/log_viewer/follower.py:260-309 | a refresh has the effect of the membership step on the watcher and of the table step on the tailer, names and paths |
| CollectPaging.ServedIsFilteredFull | app/services/collect_service.py:42-82 | merging prefixes gives the full order with the unfetched rows left out |
| CollectPaging.PageOfSelectionIff | app/services/collect_service.py:79-82 | cutting a page out of a selection is right exactly when all up to its end was selected |
| CollectPaging.ShareIsPrefix | app/services/collect_service.py:133-138 | within the merged order each source keeps its own order |
| CollectPaging.FullIsNewestFirst | app/services/collect_service.py:75-76 | the full order: later timestamps first, ties in table and row order, every item once |
| CollectPaging.PageRows | app/services/collect_service.py:79-82 | which rows of the full order a page holds |
| CollectPaging.ServedPageIsFullIff | app/services/collect_service.py:369-375 | exactly when a page cut from prefixes is the page of the full merge |
| CollectPaging.LongPrefixesSuffice | app/services/collect_service.py:42-44 | prefixes reaching the end of the page always suffice |
| CollectPaging.LatePagesAreEmpty | app/services/collect_service.py:410-414 | with two-page prefixes nothing is served after twice as many pages as sources |
| CollectPaging.ThirdPageOfOneSourceIsLost | app/services/collect_service.py:358-375 | a one-source history serves its third page empty although it has rows |
| CollectPaging.PagesCoverEverything | app/services/collect_service.py:78-84 | all pages together show every item once, newest first |
| CollectPaging.GetPostsPaginated | app/services/collect_service.py:21-84 | every page of posts, of one source or both merged, is the page of the full order, with the true total |
| CollectPaging.HistoryTablesAsked | app/services/collect_service.py:333-367 | which tables a history of each source type reads |
| CollectPaging.GetCrawlHistory | app/services/collect_service.py:310-380 | the served page; for the first two pages the page of the full merge |
| EntitySources.AddWrites | app/services/entity_source_service.py:72-141 | what an add stores, field by field, and when it changes nothing |
| EntitySources.UpdateWrites | app/services/entity_source_service.py:236-262 | what an update stores, field by field |
| EntitySources.PrimaryWrites | app/services/entity_source_service.py:193-234 | what choosing a primary writes: flags and reference, nothing else |
| EntitySources.RemoveWrites | app/services/entity_source_service.py:150-191 | what a removal deletes and writes, and that no remaining source outranks the successor |
| EntitySources.AddKeeps | app/services/entity_source_service.py:72-141 | add keeps one named primary, uniqueness and counts, and touches no other entity |
| EntitySources.PrimaryKeeps | app/services/entity_source_service.py:193-234 | set-primary makes exactly the chosen source primary |
| EntitySources.RemoveKeeps | app/services/entity_source_service.py:150-191 | remove keeps the same; a removed primary is succeeded by a source of top priority, or by none |
| EntitySources.UpdateKeeps | app/services/entity_source_service.py:236-262 | update changes no bookkeeping |
| EntitySources.CallKeeps | app/services/entity_source_service.py:64-262 | any one call keeps every entity sound |
| EntitySources.EveryRunIsSound | app/services/entity_source_service.py:64-315 | after any run: one named primary or none, unique sources, true counts from the first add or remove on |
| EntitySourceService.Session.Commit | app/services/entity_source_service.py:130-132 | what is pending becomes durable |
| EntitySourceService.Session.Rollback | app/services/entity_source_service.py:223-225 | what is pending is undone |
| EntitySourceService.Session.UpdateSourceCount | app/services/entity_source_service.py:274-297 | the entity's count becomes the real one |
| EntitySourceService.Session.UpdatePrimarySource | app/services/entity_source_service.py:299-315 | the entity names the given primary |
| EntitySourceService.Session.AddSource | app/services/entity_source_service.py:64-141 | adds, or finds the duplicate, or refuses an unknown entity |
| EntitySourceService.Session.FirstByPriority | app/services/entity_source_service.py:175-185 | the source the ordered query puts first has top priority |
| EntitySourceService.Session.SetPrimarySource | app/services/entity_source_service.py:193-234 | changes the primary, and changes nothing when the source is missing |
| EntitySourceService.Session.RemoveSource | app/services/entity_source_service.py:143-191 | removes a source and settles its succession |
| EntitySourceService.Session.UpdateSource | app/services/entity_source_service.py:236-262 | patches priority and contributed fields |
| ConfigMerge.DeepMerge | app/routes/sleep_now.py:158-171 | the copy-and-assign loop computes the merge, in any key order |
| ConfigMerge.MergeByPath | app/routes/sleep_now.py:158-171 | the merged value at every path, from the two trees alone |
| ConfigMerge.EmptyIsIdentity | app/routes/sleep_now.py:165-171 | the empty tree is a two-sided identity |
| ConfigMerge.MergeAbsorbsIff | app/routes/sleep_now.py:165-171 | merging leaves the override unchanged exactly when it covers the base |
| ConfigMerge.MergeIdempotent | app/routes/sleep_now.py:158-171 | merge(a, a) = a and merge(merge(a, b), b) = merge(a, b) |
| ConfigMerge.MergeAssociatesIff | app/routes/sleep_now.py:158-171 | exactly when merging is associative |
| ConfigMerge.MergeDoesNotAssociate | app/routes/sleep_now.py:158-171 | three trees on which merging is not associative |
| ConfigMerge.MergeAssociatesOnSameShape | app/routes/sleep_now.py:158-171 | it is when no path is an object in one tree and not in the other |
| ConfigUpdate.ConfigStore.UpdateConfig | app/routes/sleep_now.py:648-696 | a wrong password is refused and nothing else is; then the hash in the section, then the validator; the stored tree changes only on success, to the merge; when a restart is asked for |
| ConfigUpdate.HashKeptIff | app/routes/sleep_now.py:659-671 | exactly when an accepted update leaves the stored hash as it was |
| ConfigUpdate.ListSectionReplacesAll | app/routes/sleep_now.py:659-676 | a section given as a list passes the field check, so that it is applied exactly if the validator accepts, and then the hash is gone |
| ConfigUpdate.UnmentionedIsKept | app/routes/sleep_now.py:158-171 | what a request does not mention is kept, at any depth |
| DailyStats.DayRowsConserve | app/services/daily_stats_service.py:75-106 | the totals of a day's rows add up to its logs |
| DailyStats.OneRowPerKey | app/services/daily_stats_service.py:98-104 | one row per key with logs, none without |
| DailyStats.ProxyRowAddsUp | app/services/daily_stats_service.py:77-175 | successes plus failures are the attempts; error counts are the failures that carry a type |
| DailyStats.ProxyRowTells | app/services/daily_stats_service.py:77-175 | a host's row in plain counts of that host's logs of the day: attempts, successes, failures, every error type |
| DailyStats.MonitoringRowTells | app/services/daily_stats_service.py:205-262 | a schedule's row in plain counts of that schedule's events of the day |
| DailyStats.ProxyHostsHaveRows | app/services/daily_stats_service.py:98-108 | a host has a row exactly when it has logs on the day |
| DailyStats.SchedulesHaveRows | app/services/daily_stats_service.py:232-240 | a schedule has a row exactly when it has events on the day |
| DailyStats.MonitoringRowAddsUp | app/services/daily_stats_service.py:219-243 | the counted outcomes never exceed the checks |
| DailyStats.RangeTotals | app/services/daily_stats_service.py:294-305 | the totals of a range's rows are the sums of its days |
| DailyStats.RangeOtherDays | app/services/daily_stats_service.py:62-141 | the rows of days outside the range are left as they were, in their order |
| DailyStats.RangeDayRows | app/services/daily_stats_service.py:52-141 | after a run every day of the range holds its own rows, or, if it had rows and the run was not forced, those |
| DailyStats.RangeCounts | app/services/daily_stats_service.py:290-305 | the count returned is the number of rows of the days that were not skipped |
| DailyStats.ProxyRangeConserves | app/services/daily_stats_service.py:33-141 | attempts over a range equal the logs with a host in it, when forced or without earlier rows |
| DailyStats.MonitoringRangeConserves | app/services/daily_stats_service.py:177-270 | checks over a range equal its events, likewise |
| DailyStats.RerunIsSilent | app/services/daily_stats_service.py:53-60 | an unforced rerun writes nothing and changes neither table |
| DailyStats.DailyStatsService.AggregateProxyDailyStats | app/services/daily_stats_service.py:33-141 | skip, delete, group and insert for one day of proxy logs |
| DailyStats.DailyStatsService.AggregateMonitoringDailyStats | app/services/daily_stats_service.py:177-270 | the same for monitoring events |
| DailyStats.DailyStatsService.AggregateDateRange | app/services/daily_stats_service.py:272-305 | every day of the range in order, with both totals |
| AlertRules.RefusalTells | app/services/alert_rule_settings_service.py:103-110 | exactly when a write is refused and for which reason, in order |
| AlertRules.WriteStores | app/services/alert_rule_settings_service.py:113-147 | what an accepted write stores, field by field |
| AlertRules.ViewTells | app/services/alert_rule_settings_service.py:161-197 | the row of a registered rule, field by field |
| AlertRules.StaleViewTells | app/services/alert_rule_settings_service.py:200-219 | the row of an override whose rule is gone, field by field |
| AlertRules.VersionCountsWrites | app/services/alert_rule_settings_service.py:121-147 | a rule's version is its number of accepted writes |
| AlertRules.ExpectedVersionIsUsedOnce | app/services/alert_rule_settings_service.py:221-230 | two writes expecting the same version are never both accepted |
| AlertRules.LockedRulesStayUp | app/services/alert_rule_settings_service.py:238-251 | a locked rule stays enabled, its severity its default or critical |
| AlertRules.FieldsAreLastGiven | app/services/alert_rule_settings_service.py:113-119 | every stored field is the one given last by an accepted write |
| AlertRules.RulesAreIndependent | app/services/alert_rule_settings_service.py:95-149 | a rule's override is what its own writes alone leave, whatever is written to other rules in between |
| AlertRules.AlertRuleSettings.UpdateOverride | app/services/alert_rule_settings_service.py:95-149 | the refusals in order, else the merged override is stored and shown |
| AlertRules.AlertRuleSettings.EffectiveRules | app/services/alert_rule_settings_service.py:54-70 | exactly one row per registered rule or override, registered first, each part sorted |
| MonthArithmetic.CalendarLengths | app/cli/tracking_add.py:36-36 | the lengths of the months |
| MonthArithmetic.YearStarts | app/cli/tracking_add.py:32-37 | the day on which a year begins, in closed form |
| MonthArithmetic.InstantMeaning | app/cli/tracking_add.py:51-59 | what an instant counts, and where the calendar ends |
| MonthArithmetic.AddMonthsIsCalendarShift | app/cli/tracking_add.py:32-37 | a valid date that many months on, day clamped; raises exactly when the year leaves the calendar |
| MonthArithmetic.AddMonthsMonotone | app/cli/tracking_add.py:32-37 | strictly increasing in the months, monotone in the date |
| MonthArithmetic.TimeOfDayTurnsRoundIff | app/cli/tracking_add.py:32-37 | with the time of day: exactly when the order of two instants turns round, becomes a tie, or survives |
| MonthArithmetic.TimeOfDayCanTurnRound | app/cli/tracking_add.py:36-37 | two instants whose order turns round |
| MonthArithmetic.TwoStepsIff | app/cli/tracking_add.py:32-37 | two steps reach at most one step's date, and the same exactly when the first did not clamp below it |
| MonthArithmetic.ResolveTells | app/cli/tracking_add.py:44-63 | the exact instant of every relative token, to the second, and when it is refused or overflows |
| MonthArithmetic.TokensPointForward | app/cli/tracking_add.py:40-59 | every accepted relative token lies strictly after now |

## Left out

- CoupangHistory.ComputePublicHistoryPairs: JSON, label and status parsing and the two date parsers are inputs; durations are whole seconds instead of floats.
- BootHistory.BuildBootHistory: malformed lines, timestamps with sub-second parts or mixed zones and the catch-all error path are not modelled; equal start times keep their log order.
- FileTail.FileTailer.ReadNewLines: text is one byte per character and free of carriage returns; decoding and writes racing a read are not modelled.
- RunnerWatching.MultiTailer.AddSource: a source is a name and a path; colours, level detection, line filters and the interleaving of sources in one poll are left out, as is the order in which new sources are inserted.
- CollectPaging.GetPostsPaginated: tables are taken after filtering and with non-null timestamps, in the database's order of ties; row conversion is left out.
- CollectPaging.GetCrawlHistory: the statistics returned beside the page are left out.
- EntitySourceService.Session.AddSource: extracted data and timestamps of a source are left out, and the key of a new row is an input.
- ConfigUpdate.ConfigStore.UpdateConfig: the password check and the settings validator are inputs; reload signal and event log are left out.
- DailyStats.DailyStatsService.AggregateProxyDailyStats: response-time averages and commit durability are left out; the default date is the caller's; a null success flag is not modelled.
- DailyStats.DailyStatsService.AggregateMonitoringDailyStats: the average response time is left out.
- AlertRules.AlertRuleSettings.UpdateOverride: the registry is fixed and not empty; app/services/failure_alert_policy.py is not part of this model, a rule being its default severity and whether it has critical kinds.
- MonthArithmetic.TokensPointForward: splitting a token into amount and unit and writing the instant as text are left out; absolute dates are not modelled.
- Routing, schemas, authentication, Redis, HTTP, browsers and the static-source watcher: plumbing or easy members.
- Crawl-request transitions and duplicate detection: their consuming code is not in the repository's files.
