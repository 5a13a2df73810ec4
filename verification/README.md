# Resumable state machines of kukuri, in Dafny

kukuri is a peer-to-peer topic application. Its application API (`crates/app-api`) is built from
operations that must survive a crash between any two writes, a retry of the same operation, and
readers that answer only in part. This project models those operations and proves what they keep.

| module | what it models |
|---|---|
| `Order` | string and (time, id) order, ordered insertion |
| `IndexMerge` | the merge of several readers' time-index pages |
| `ChannelId`, `IndexKey` | the form of public channel ids; the keys of a time index |
| `RetentionBooks` | the rows of public topic retention and the standing of every target |
| `RetentionStep` | one step of it |
| `SingleReader`, `EarlyFinish`, `LateEntry` | runs of it: a day marked finished too early, an entry that arrives behind a cursor |
| `RetentionTask`, `RetentionProgress` | the start and exit protocol of the retention task, under every interleaving; what it can always still do, and how shutdown ends it |
| `Rotation`, `RotationDevice`, `Handover` | private channel key rotation: policies, the device's operations, the paged hand-over |
| `DomeMove` | the five-stage move of a Dome |
| `HostingLog`, `DomeDelete` | the hosting lease log, its compaction, and the deletion journal |
| `Selection` | the winner of a Dome slot |
| `LiveOverlay` | the replay filter of live overlay pushes |
| `Paging`, `Timeline`, `PublicChannels`, `Bookmarks` | filtered, bounded and two-way paging |
| `SyncDelta` | status snapshots and deltas |

Three forms are used. Code that updates stores step by step is a class whose methods can stop
before every write: an early return stands for a crash, a shutdown and a failed write alike, and
the class invariant holds at each of them, so it holds at every crash point of every run of
operations. The Dome move is a table of stages with one state per write, a method proved to follow
it, and lemmas over all runs of stopped calls. The retention task is a state machine over the
atomic steps of all parties, with an induction over its runs. Pure code is functions and lemmas.

The readers of topic retention are up to four neighbours that rotate. A reader counts as steady from
the step in which it is asked (`Join`) to the step in which it is not, or does not answer, or is
passed (`Leave`); what it is known to hold grows (`Arrive`). What is proved of a step concerns the
readers that are steady in it.

`var b: bool := *` in a method is a choice the model leaves open (a fault, an answer, an
interleaved party).

## What the proofs show about the code

Several promises hold only under a condition. For each there is a concrete input on which the code
does not meet the promise, and a lemma that gives the exact condition.

- The merged index page ignores the `resume` of a reader that was cut short when it bounds the
  page, so a cursor can pass unread keys (`SkipExample`); it is safe exactly when no unread key fits
  between a `resume` and a returned entry (`InitialSegmentIffNoOverrun`), and for one reader exactly
  when none of its own does (`ReaderNoGapIff`). A page can also be empty
  while a due key is held (`StallExample`), exactly when nothing due is offered and a reader gave up
  before something due (`ProgressIff`).
- `resume` is set only on pages shorter than the limit. A full page that exactly uses the budget
  leaves `more` unset, so a past day is marked finished with an entry unread (`EarlyFinishExample`);
  nothing is missed exactly when no answer was full, and nothing of one reader exactly when its own
  was not (`ReadToEndIffNoFullPage`, `ReaderReadIff`, `DayReadIff`).
- A question starts at the stored cursor, so an entry that reaches a reader behind it is not read
  while that cursor stands (`LateExample`; the time of an entry is what its author declares, and
  readers replicate late). The promise that cursors pass settled entries only survives an arrival
  exactly when the entry is ahead of the cursor or its target is settled (`ArrivesIff`, `Arrive`).
- An index lists its keys in byte order and the merge compares time and id. The two orders agree on two
  entries exactly when their times differ or neither id continues the other with a character that sorts
  before the slash (`KeyOrderIff`, `ListedBackwardsExample`), which holds of public channel ids and of ids
  of one length (`ChannelsAgree`, `SameLengthAgrees`). The readers' contract presumes it.
- Releasing and retaining a topic again while a step runs drops its retry schedule under a cursor
  that is then written (`ResumedMidStepExample`), exactly when an entry up to that cursor stood on
  the schedule or among the given-up alone (`ResumedMidStepIff`). The SQLite store keeps the day rows
  over a release, so the cursor stays; the in-memory store opens the day anew in the next step, which
  drops it (`ResumedCursorLastsIff`). Over a whole run the cursors have passed accounted targets only,
  exactly when each target behind them was taken in whole or has failed since the last release
  (`RunIsAccounted`).
- An entry-Dome update writes back the policy it read. If a rotation froze the epoch in between,
  the write reopens a superseded epoch (`StaleEntryExample`, `EntryWriteSafeIff`). The same holds
  for a rotation's own policy write that is delayed past a later rotation (`DelayedOpenExample`,
  `OpenWriteSafeIff`).
- A Dome move stores its record before it looks at the canonical target slot. With an active
  instance there the owner has two active Domes while the source is not detached, and the move can
  never complete (`OccupiedExample`, `RunIsSafeIff`, `CompletesIff`).
- At the largest `u64` the hosting epoch saturates, so issuing a lease no longer resolves a
  conflict (`LimitExample`, `IssueIsUniqueIff`), and a deletion cannot complete while one lasts
  (`ConflictExample`, `Owner.Delete`).
- A slot generation at the largest `u64` wraps around in a release build (`WrapExample`,
  `AcceptWinsIff`).
- A live overlay event is accepted twice if the clock goes back over a prune (`ClockBackExample`):
  exactly when the ledger was pruned at or after its expiry in between (`AcceptedAgainIff`).
- The way to the newer bookmark page and back is lossless exactly when some row is newer
  (`NoWayBackExample`, `ThereAndBackIff`, `NewerComesBack`).

The documentation of `TimeIndexPage` says that a page shorter than its limit without `resume` is the
end of the index; nothing is promised about a full page. The model follows the code in this.

## Model

| member | source | states |
|---|---|---|
| `IndexMerge.MergedIndexPage` | crates/app-api/src/topic_retention.rs:180-232 | The merged page, described without its loops: in order, at most `limit`, the first reader to return a position wins, nothing later than `not_after` or behind a full page's last entry; every other offered position within those bounds is returned unless the page is full and ends before it; `more` and `answered` exactly when something offered was left out or a reader was cut short, and when some reader answered |
| `IndexMerge.Collect` | crates/app-api/src/topic_retention.rs:190-215 | First loop: the merge map holds exactly the offered positions with their first reader, and `bound` is the smallest last entry of a full page |
| `IndexMerge.AddPage` | crates/app-api/src/topic_retention.rs:210-214 | One reader's page is entered unless a position is already taken |
| `IndexMerge.TakeKeys` | crates/app-api/src/topic_retention.rs:216-231 | Last loop: the longest run of keys that are not too new, within the bound and within `limit` |
| `IndexMerge.HeldKey` | crates/docs-sync/src/time_index.rs:69-84 | Reader contract: a key that a reader holds is on its page, or behind its full page, or behind its `resume` |
| `IndexMerge.OfferedIsAfter` | crates/app-api/src/topic_retention.rs:641-650 | An answer offers nothing at or behind the cursor it was asked to start from, so an entry behind a stored cursor is in no answer |
| `IndexKey.KeyRoundTrip` | crates/docs-sync/src/time_index.rs:482-506 | An index key is read back as its entry exactly when the id is not empty and has no slash, and is dropped otherwise |
| `IndexKey.ParsedIsKey` | crates/docs-sync/src/time_index.rs:482-506 | Whatever is read as an entry is the key of that entry |
| `IndexKey.KeyOrderIff` | crates/core/src/posts.rs:412-414 | The keys of two entries sort by time and id if and only if their times differ or neither id continues the other with a character before the slash |
| `IndexKey.ChannelsAgree` | crates/core/src/public_channels.rs:31-51 | The keys of public channel ids always do |
| `IndexKey.ListedBackwardsExample` | crates/docs-sync/src/time_index.rs:290-310 | Two ids of one second whose keys sort the other way |
| `IndexMerge.PickedCount` | crates/app-api/src/topic_retention.rs:216-231 | The answers determine how many entries the page returns |
| `IndexMerge.PageIsInitialSegment` | crates/app-api/src/topic_retention.rs:180-232 | For every set of conforming readers, no key of an answering reader is skipped by a cursor moved to any returned entry, if no unread key fits between a `resume` and an entry |
| `IndexMerge.ReturnsIffPicked` | crates/app-api/src/topic_retention.rs:200-226 | The page returns exactly the first `limit` offered positions that are due and within the bound |
| `IndexMerge.ReaderNoGapIff` | crates/app-api/src/topic_retention.rs:200-226 | For one reader, read off the answers: no key that it may hold is passed by the page if and only if no unread key of that reader fits between its own `resume` and one of those positions, whether or not others were cut short |
| `IndexMerge.InitialSegmentIffNoOverrun` | crates/app-api/src/topic_retention.rs:200-226 | Read off the answers: the page is an initial segment of every index that fits them if and only if no unread key fits between a `resume` and one of those positions |
| `IndexMerge.ReaderReadIff` | crates/app-api/src/topic_retention.rs:180-232 | For one reader: `more == false` means that all it may hold was returned, if and only if its own answer did not fill the page |
| `IndexMerge.ReadToEndIffNoFullPage` | crates/app-api/src/topic_retention.rs:180-232 | `more == false` means everything was read, for every index that fits the answers, if and only if no answer filled its page |
| `IndexMerge.DueIsReturned` | crates/app-api/src/topic_retention.rs:216-226 | With `limit >= 1` the page is not empty once any answer offers a due position |
| `IndexMerge.ProgressIff` | crates/app-api/src/topic_retention.rs:180-232 | A due key held by any answering reader means a page with entries, for every index that fits the answers, if and only if some answer offers a due position or no reader gave up before one |
| `IndexMerge.StallExample` | crates/app-api/src/topic_retention.rs:200-226 | A reader that gave up without an entry: an empty page although a due key is held |
| `IndexMerge.SkipExample` | crates/app-api/src/topic_retention.rs:200-226 | Two conforming readers on which the cursor skips an unread key |
| `IndexMerge.CutShortElsewhere` | crates/app-api/src/topic_retention.rs:200-226 | On those answers the page passes an unread key of the reader that gave up and none of the other |
| `ChannelId.SplitOnce` | crates/core/src/public_channels.rs:37-40 | Splitting at the first separator loses nothing and leaves no separator in the head |
| `ChannelId.PublicChannelIdIff` | crates/core/src/public_channels.rs:31-51 | An id is a public channel's exactly when it is `pc-`, a positive `i64` written in decimal without a leading zero, a dash and sixteen lower-case hex digits |
| `ChannelId.WriteRead` | crates/core/src/public_channels.rs:46-50 | Digits without a leading zero are the decimal writing of the number they are read as |
| `RetentionBooks.IndexTargetIff` | crates/app-api/src/topic_retention.rs:271-288 | A timeline entry points at the post of its id; a channel-list entry at the channel of its id exactly when that is a public channel's; an activity entry at a post exactly when its id is a public channel's, a dot and the post's; at nothing else |
| `RetentionBooks.ScheduleIff` | crates/store/src/memory/topic_retention.rs:103-145 | Exactly when a failed target is scheduled and when it is given up: fewer than five attempts, or room in the table; nothing else changes |
| `RetentionBooks.RetryIff` | crates/app-api/src/topic_retention.rs:579-604 | A retry that completes takes its target off the schedule, whole; one that does not puts it back or gives it up; nothing else is touched |
| `RetentionBooks.ResumedIsFresh` | crates/store/src/sqlite/topic_retention.rs:10-59 | Released and retained again, a topic has no cursor, schedule or given-up target, and every day row that is left is to be read again |
| `RetentionBooks.FinishedDayIs` | crates/store/src/memory/topic_retention.rs:294-303 | Finishing a day marks its row, if there is one, drops its cursors, and touches nothing else |
| `RetentionBooks.FailKeeps` | crates/store/src/memory/topic_retention.rs:103-145 | A failure settles the target, unsettles nothing, and keeps every standing earned: given up only after more than five failures or a full table |
| `RetentionBooks.TakeKeeps` | crates/app-api/src/topic_retention.rs:654-694 | Taking a target in keeps all that; it is retained only after an attempt that completed |
| `RetentionBooks.RetryKeeps` | crates/app-api/src/topic_retention.rs:579-604 | So does a retry that has come due |
| `RetentionBooks.ReleaseKeeps` | crates/store/src/sqlite/topic_retention.rs:36-59 | A release in mid-step, in the store that keeps the day rows and in the one that does not, loses exactly what only the rows of the topic accounted for |
| `RetentionBooks.CursorMoves` | crates/store/src/memory/topic_retention.rs:71-88 | A cursor may move to an entry when all before it and the entry itself are settled |
| `RetentionBooks.ResumedMidStepIff` | crates/store/src/memory/topic_retention.rs:10-31 | Release and retain again before a cursor is written: it stays sound if and only if no entry up to it stood on the schedule or among the given-up alone |
| `RetentionBooks.ResumedMidStepExample` | crates/store/src/memory/topic_retention.rs:10-31 | A scheduled target lost that way |
| `RetentionBooks.ResumedCursorLastsIff` | crates/store/src/memory/topic_retention.rs:246-257 | Such a cursor outlasts the rows that the next step opens if and only if its day is in the period and not opened anew; so it does in the SQLite store, which keeps the day rows over a release, and not in the in-memory store |
| `RetentionBooks.ArrivesIff` | crates/app-api/src/topic_retention.rs:641-650 | A reader gains an entry: no cursor has passed an unsettled entry then, if and only if no cursor is stored at that place, or it lies before the entry, or the entry's target is settled already |
| `RetentionBooks.AccountedIff` | crates/store/src/memory/topic_retention.rs:20-145 | After every history of changes a target is retained, scheduled or given up if and only if some attempt completed or it failed, with the topic retained, since the last release |
| `RetentionBooks.CursorsAccountedIff` | crates/store/src/memory/topic_retention.rs:20-145 | After every history the cursors have passed accounted targets only, if and only if each target behind them was taken in whole or has failed, with the topic retained, since the last release |
| `RetentionBooks.HistoryIsFair` | crates/store/src/memory/topic_retention.rs:20-145 | After every history each target is retained, scheduled, given up or lost only for its reason, and no row is stored of a topic that is not retained, but for kept day rows |
| `RetentionBooks.NothingDroppedMeans` | crates/store/src/memory/topic_retention.rs:20-145 | That is so if, since the last release between two steps, no release in mid-step met a target that stood on the rows alone and none failed while the topic was away |
| `RetentionStep.NextBackfill` | crates/store/src/memory/topic_retention.rs:275-292 | The newest unfinished day of the period before yesterday, and none only if there is none |
| `RetentionStep.DaysToRead` | crates/app-api/src/topic_retention.rs:611-615 | Yesterday and today within the period, and at most the backfill day besides |
| `RetentionStep.TopicRetention.ReleaseTopic` | crates/store/src/memory/topic_retention.rs:20-31 | Released between steps, the topic loses its rows and no target below a cursor |
| `RetentionStep.TopicRetention.RetainTopic` | crates/store/src/sqlite/topic_retention.rs:12-34 | Retaining a topic stores its row and sets kept day rows back to unread; nothing changes if it was retained |
| `RetentionStep.TopicRetention.Arrive` | crates/app-api/src/topic_retention.rs:641-650 | Between steps a steady reader gains an entry; the invariant holds of it if and only if it arrives in time |
| `RetentionStep.TopicRetention.Join` | crates/app-api/src/service/remote_read_support.rs:859-889 | A reader that is asked from now on, as readers rotate, counts from now on; what it holds arrives |
| `RetentionStep.TopicRetention.Leave` | crates/app-api/src/service/remote_read_support.rs:859-889 | A reader that is no longer asked, did not answer or gave up is left out; all else stands |
| `RetentionStep.TopicRetention.Interfere` | crates/store/src/memory/topic_retention.rs:10-31 | Before each access of a step to its store the topic may be released, retained, or both: the books are exactly those of that history, so nothing is lost without a release |
| `RetentionStep.TopicRetention.RunIsAccounted` | crates/app-api/src/topic_retention.rs:545-727 | Over every run of operations each target at or below a stored cursor is retained whole, scheduled or given up, if and only if each was taken in whole or has failed, with the topic retained, since the last release; so it is in every run that drops nothing |
| `RetentionStep.TopicRetention.RunIsFair` | crates/app-api/src/topic_retention.rs:545-727 | Over every run each target is given up only after more than five failures or a full table, and retained only after an attempt that completed |
| `RetentionStep.TopicRetention.TakeEntry` | crates/app-api/src/topic_retention.rs:653-707 | An entry is taken in before the cursor is moved to it, whatever fails in between; undisturbed, the books are exactly those of `TakeOne` |
| `RetentionStep.TopicRetention.TakePage` | crates/app-api/src/topic_retention.rs:653-707 | A page is taken in oldest first, one budget unit each without underflow; the cursor ends at its last entry and nothing but its targets is settled |
| `RetentionStep.CutShortReaderIsPassed` | crates/app-api/src/topic_retention.rs:200-226 | What a step asks of its readers holds of a steady one although another was cut short and passed |
| `RetentionStep.TopicRetention.ReadIndex` | crates/app-api/src/topic_retention.rs:637-708 | After a page that reports nothing left, every steady reader's entry of that index and day is settled if none of their own answers was full; a reader that is not steady may be cut short, full or silent |
| `RetentionStep.PointedIsPast` | crates/app-api/src/topic_retention.rs:641-650 | A question that starts at the stored cursor is answered by positions past it alone |
| `RetentionStep.OneMoreFollowed` | crates/app-api/src/topic_retention.rs:653-707 | Taking in a page moves the cursor of its index to or past all it returned, and no other cursor |
| `RetentionStep.OneMoreLeft` | crates/app-api/src/topic_retention.rs:636-650 | Each question asks for exactly what the pages before it have left of the budget |
| `RetentionStep.TopicRetention.ReadIndexes` | crates/app-api/src/topic_retention.rs:636-708 | The three indexes of a day under one budget, each asked for what the others left; without a fault the day is left early only with the budget at zero |
| `RetentionStep.TopicRetention.ScanAndFinish` | crates/app-api/src/topic_retention.rs:709-724 | A day is marked finished only if it is past, its indexes reported nothing left and its listings are done; undisturbed and with nothing listed, exactly then |
| `RetentionStep.TopicRetention.ReadDay` | crates/app-api/src/topic_retention.rs:616-725 | A finished day has all its steady readers' entries settled if none of their own answers was full, and settles only what its answers or listings point at |
| `RetentionStep.DayReadIff` | crates/app-api/src/topic_retention.rs:648-652 | No full answer is the exact condition: pages that report nothing left have drained the readers, for every index that fits the answers, if and only if it holds |
| `RetentionStep.NoneFullIsShort` | crates/app-api/src/topic_retention.rs:648-652 | If no answer at all was full, none of the steady readers' was |
| `RetentionStep.TopicRetention.ReadDays` | crates/app-api/src/topic_retention.rs:611-726 | The days of a step in order, under one shrinking budget: the questions start at the cursors read and concern the days visited, only what they or the listings point at is settled, and without fault or disturbance the cursors of live days stand at or past all that was returned |
| `RetentionStep.TopicRetention.ReadLiveDays` | crates/app-api/src/topic_retention.rs:611-708 | The same for today and yesterday, which are never marked |
| `RetentionStep.TopicRetention.OpenAndPrune` | crates/app-api/src/topic_retention.rs:558-562 | Day rows, then old cursors, as two writes; nothing is unsettled and no day is finished by it |
| `RetentionStep.TopicRetention.TakeRetries` | crates/app-api/src/topic_retention.rs:574-605 | Each due retry costs one unit of 32 and ends settled; undisturbed, the books are exactly those of `RetryAll` |
| `RetentionStep.TopicRetention.ScanPage` | crates/app-api/src/topic_retention.rs:766-814 | A key listing, version by version: those seen before are kept, others are reflected while the budget lasts, at one unit each; withdrawals and reactions of posts not retained yet wait at no cost; nothing is left out unless the budget ran out (`more`) or a version could not be read (not `complete`) |
| `RetentionStep.TopicRetention.ScanSlot` | crates/app-api/src/topic_retention.rs:762-816 | What counts as seen of a kind afterwards is what this listing kept, and nothing if the scan broke off; no other kind or day is touched |
| `RetentionStep.TopicRetention.ScanKeys` | crates/app-api/src/topic_retention.rs:732-819 | If nothing is left, every listed version of every kind has been reflected, could not be read or waits; `complete` only if every listing was answered |
| `RetentionStep.TopicRetention.OpenAndChoose` | crates/app-api/src/topic_retention.rs:560-576 | The rows of the period, the day to go back to, and what was seen kept for today, yesterday and that day alone |
| `RetentionStep.TopicRetention.Step` | crates/app-api/src/topic_retention.rs:545-727 | Every step, stopped or disturbed anywhere, on indexes that may have grown and among readers that may be cut short, keeps: each entry at or below a stored cursor that a steady reader held in time is retained whole, scheduled, rightly given up, or lost by a release in mid-step, and nothing settled becomes unsettled; a retained topic that is not released in mid-step loses nothing; only a past day of the period is newly finished, as `ReadDay` states; without a fault the due retries and the first positions of every answer asked for are taken in, so that each post and each public channel they name is settled; a step that reports nothing left, and met no full answer of a steady reader, has settled all days it read, today and yesterday included, and gone through every key listed for them; it does report nothing left when it read today and yesterday alone, their pages left nothing and no key is listed, and never when it has finished a past day; undisturbed, it settles nothing that the answers hold at or behind a stored cursor, and without a fault its cursors follow |
| `EarlyFinish.EarlyFinishExample` | crates/app-api/src/topic_retention.rs:648-724 | A run of one step, on a topic just retained, that marks a day as read to its end while the target of one of its entries is neither retained nor scheduled nor given up |
| `LateEntry.LateExample` | crates/app-api/src/topic_retention.rs:641-650 | A run of two steps with an entry that arrives behind the cursor in between: the second step leaves its target neither retained nor scheduled nor given up |
| `RetentionTask.EveryRunIsSafe` | crates/app-api/src/topic_retention.rs:309-332 | In every interleaving of set calls, start-up, release, shutdown and the task: at most one task works, and while a row of a returned set call, or one that start-up found, is stored and the service is open, a live task exists |
| `RetentionTask.SetIsServed` | crates/app-api/src/topic_retention.rs:309-332 | In every run: when a set call that stored its row has started the task, with the service open and no release of its topic in between, the topic is retained, its row counts as promised, and a live task serves it |
| `RetentionTask.StartUpServes` | crates/app-api/src/topic_retention.rs:389-428 | The same for start-up and every topic that was retained when it read the rows and has not been released since |
| `RetentionTask.RowsChange` | crates/app-api/src/topic_retention.rs:309-332 | A row is stored by a set call for its topic, which keeps one that is there, and deleted by a release of its topic; no other step and no other topic's call touches it |
| `RetentionTask.CallLasts` | crates/app-api/src/topic_retention.rs:309-428 | While the service is open a call stays in flight with the rows it stored or found until it starts the task |
| `RetentionProgress.NoTaskIsLost` | crates/app-api/src/topic_retention.rs:413-440 | In every run each live task is the one behind the handle, or has been aborted |
| `RetentionProgress.HandleStopsTask` | crates/app-api/src/topic_retention.rs:430-440 | When shutdown takes the handle, the task behind it can be cancelled at once |
| `RetentionProgress.ShutdownIsBounded` | crates/app-api/src/topic_retention.rs:430-505 | In every run: once closed the service stays closed, and the tasks take no more steps than a bound that is fixed when it closes, whatever calls come in |
| `RetentionProgress.CanEnd` | crates/app-api/src/topic_retention.rs:430-505 | From every closed state that can be reached, task steps alone, within that bound, lead to a state with no live task and the mutex free |
| `RetentionProgress.NoNewRound` | crates/app-api/src/topic_retention.rs:460-475 | In every run: a task that works after the service was closed was at work when it closed |
| `RetentionProgress.LateCallFails` | crates/app-api/src/topic_retention.rs:413-418 | In every run: a call that begins after the service was closed never starts a task |
| `RetentionProgress.CanShutDown` | crates/app-api/src/topic_retention.rs:430-440 | From every state shutdown can end the service, with no live task and no handle |
| `RetentionProgress.SetCanReturn` | crates/app-api/src/topic_retention.rs:309-332 | From every state of the open service a set call can return, with its topic retained and served |
| `RetentionProgress.StartUpCanReturn` | crates/app-api/src/topic_retention.rs:391-411 | So can start-up, with a live task exactly when a row is stored or something is left to reclaim |
| `RetentionProgress.NextRound` | crates/app-api/src/topic_retention.rs:460-505 | While a promised row is stored, the task can go into its next round by its own steps |
| `RetentionProgress.TaskCanEnd` | crates/app-api/src/topic_retention.rs:474-491 | When no row is stored, the task can end by its own steps, and clears the handle |
| `RetentionProgress.LastReleaseEnds` | crates/app-api/src/topic_retention.rs:313-318 | So it can after the last topic is released |
| `RetentionTask.LoopKeepsInv` | crates/app-api/src/topic_retention.rs:460-505 | The task's loop steps keep the invariant |
| `RetentionTask.LockKeepsInv` | crates/app-api/src/topic_retention.rs:474-486 | Taking the mutex and re-reading the rows keeps it; only an empty reading leads to the exit |
| `RetentionTask.EndKeepsInv` | crates/app-api/src/topic_retention.rs:487-491 | Exit and cancellation keep it: no promised row is stored at the exit |
| `RetentionTask.CallKeepsInv` | crates/app-api/src/topic_retention.rs:309-428 | The steps of a set call and of start-up keep it: a fresh row is not yet promised, and a return leaves a live task |
| `RetentionTask.OthersKeepInv` | crates/app-api/src/topic_retention.rs:430-440 | Release and shutdown keep it |
| `Rotation.ChainIsSafe` | crates/app-api/src/private_channels.rs:185-193 | The invariant gives the three promises: one open epoch at most, a source frozen before its successor opens, no token of a superseded epoch admitted |
| `Rotation.NextEpoch` | crates/app-api/src/service/projection_support.rs:223-231 | A new epoch id is later than the current one and not before now |
| `Rotation.ReservedKeepsChain` | crates/app-api/src/private_channel_rotation.rs:132-149 | Reserving an epoch keeps the invariant |
| `Rotation.FrozenKeepsChain` | crates/app-api/src/private_channel_rotation.rs:246-273 | Freezing an epoch keeps it, with or without a stored policy |
| `Rotation.OpenedKeepsChain` | crates/app-api/src/private_channel_rotation.rs:295-311 | Opening the reserved epoch keeps it once the source is frozen |
| `Rotation.CommitKeepsChain` | crates/app-api/src/private_channel_rotation.rs:330-341 | Making the opened epoch current keeps it |
| `Rotation.EntryKeepsChain` | crates/app-api/src/private_channels.rs:622-636 | An entry-Dome update of the stored policy keeps it |
| `Rotation.SetAfterKeepsChain` | crates/store/src/memory/private_channel_keys.rs:188-206 | Moving or clearing the hand-over cursor of a committed epoch keeps it |
| `Rotation.EntryWriteSafeIff` | crates/app-api/src/private_channels.rs:622-636 | An entry-Dome write from an earlier read is safe if and only if that read was frozen or the epoch is current and no later epoch is open |
| `Rotation.OpenWriteSafeIff` | crates/app-api/src/private_channel_rotation.rs:295-311 | The policy write of a new epoch is safe if and only if its source is the frozen current epoch, or the epoch is current and none is later |
| `Rotation.DelayedOpenExample` | crates/app-api/src/private_channel_rotation.rs:295-311 | A policy write delayed past a second rotation leaves two epochs open |
| `Rotation.StaleEntryExample` | crates/app-api/src/private_channels.rs:622-636 | An entry-Dome write that was read before a rotation and made after it leaves two epochs open |
| `RotationDevice.Device.constructor` | crates/app-api/src/private_channels.rs:36-70 | Creation, complete or stopped before its policy, starts in the invariant |
| `RotationDevice.Device.Prepare` | crates/app-api/src/private_channel_rotation.rs:83-151 | A reservation made from the current epoch is resumed with its id and secret; otherwise one is made with the new id and secret |
| `RotationDevice.Device.Commit` | crates/app-api/src/private_channel_rotation.rs:238-341 | Freeze, open, make current: sound at every stop and with a freeze call in between; once moved, the source is frozen and otherwise unchanged, the new epoch is open with the source as previous epoch and its entry Dome, and no other policy differs |
| `RotationDevice.Device.FreezeBetween` | crates/app-api/src/private_channels.rs:547-586 | A freeze call between the two policy writes of a rotation, or before the current epoch moves, changes nothing |
| `RotationDevice.Device.Distribute` | crates/app-api/src/private_channel_rotation.rs:376-419 | A recipient is granted the key, or is the owner, or in a friends-only channel was no mutual friend at that moment; friends throughout are granted it and strangers never are |
| `RotationDevice.Device.HandPage` | crates/app-api/src/private_channel_rotation.rs:201-233 | One page under concurrent ticks and changing participants: the stored cursor never passes a steady participant who was not handled |
| `RotationDevice.Device.Advance` | crates/app-api/src/private_channel_rotation.rs:155-234 | One stage: commit if missing, then one page; on a quiet device the cursor moves exactly one page or, on failure, not at all |
| `RotationDevice.Device.Rotate` | crates/app-api/src/private_channel_rotation.rs:16-69 | Ok only if the current epoch has left the source epoch, and always without faults; a retry keeps the epoch id and secret; its own advance is the first of the hand-over |
| `RotationDevice.Device.Tick` | crates/app-api/src/private_channel_rotation.rs:346-374 | The background tick changes neither the current epoch nor any policy |
| `RotationDevice.Device.FinishHandover` | crates/app-api/src/private_channel_rotation.rs:169-233 | From any stage of the hand-over of a committed epoch, with any number of failures in between, the advances that succeed add up to exactly n/128 + 1 and then everyone is handled |
| `RotationDevice.Device.RotateAndFinish` | crates/app-api/src/private_channel_rotation.rs:16-69 | Counted from the explicit call: its own advance and the ticks after it are n/128 + 1 together |
| `RotationDevice.Device.Freeze` | crates/app-api/src/private_channels.rs:547-586 | Freezing by a possibly outdated epoch of memory keeps the invariant and changes nothing else |
| `RotationDevice.Device.SetEntry` | crates/app-api/src/private_channels.rs:588-637 | An undisturbed entry-Dome update changes the entry alone and keeps the invariant |
| `Handover.PageHasNoGap` | crates/app-api/src/private_channel_rotation.rs:201-233 | Whoever the next cursor passes was passed before or is on the page; a last page holds all who were left |
| `Handover.AdvancesToFinish` | crates/app-api/src/private_channel_rotation.rs:223-233 | The hand-over of n participants is unfinished after j pages if and only if j <= n/128 |
| `Handover.PagesAreTable` | crates/store/src/memory/social.rs:280-298 | The pages of a hand-over together are the participant table, everyone once and in order |
| `DomeMove.Mover.MoveDome` | crates/app-api/src/dome_move.rs:9-323 | A call that stops after any number of writes leaves exactly the state that the stage table gives, and returns the record exactly when nothing is left to do for its request; a call that starts a move and returns has moved the Dome (`MovedFrom`); a stored move is closed to requests of another actor, source, topic or target, and while the target cannot be written to |
| `DomeMove.RunMoves` | crates/app-api/src/dome_move.rs:34-110 | From a disk without a record, whatever is asked from call to call: the disk is unchanged, or one request started the move on an active Dome of its actor, not being deleted, towards a context where no live Dome of theirs is known; and a completed move has made the Dome that this request asked for, with the old preset, an empty chat, and generation 1 or one above what stood there, below the u64 limit strictly so, and has changed nothing of the source but the marks of its retirement; room, canonical instance and cache row agree |
| `DomeMove.CallStarts` | crates/app-api/src/dome_move.rs:34-110 | One call on a disk without a record leaves it as it is, or its record is that of its request |
| `DomeMove.OneEntryAtATime` | crates/app-api/src/dome_move.rs:126-321 | Every write of every stage changes at most one stored entry, so the states between them are all the crash points |
| `DomeMove.Mover.Finish` | crates/app-api/src/dome_move.rs:206-279 | The same from the staged target on: detach the source, activate the target |
| `DomeMove.Mover.Close` | crates/app-api/src/dome_move.rs:281-323 | The same from the active target on: tombstone the source, complete |
| `DomeMove.StageKeepsInv` | crates/app-api/src/dome_move.rs:126-321 | Every single write of every stage keeps the invariant and the record's identity; only the last write of a stage advances the phase, by one |
| `DomeMove.RunKeepsInv` | crates/app-api/src/dome_move.rs:126-321 | The same over every run of stopped and resumed calls, whatever each call asks and finds available; the phase never goes back |
| `DomeMove.RunIsSafeIff` | crates/app-api/src/dome_move.rs:37-138 | At every crash point of every run of calls of one move, with write access, preset and deletions that come and go, the source or the target is active and an active target has a detached source, in room and canonical copies, if and only if the target context held no active instance at the start |
| `DomeMove.Completes` | crates/app-api/src/dome_move.rs:111-323 | One uninterrupted call from any stored phase that nothing blocks ends Completed: source tombstoned and pointing at the target, target active with recorded generation and preset and no chat |
| `DomeMove.CompletesIff` | crates/app-api/src/dome_move.rs:111-163 | From every crash point of every such run one uninterrupted call completes the move if and only if it is completed, or the target can be written to and is staged or has a free canonical slot and an available preset |
| `DomeMove.OccupiedExample` | crates/app-api/src/dome_move.rs:37-138 | An uncached active instance in the target context: the move starts, leaves two active instances, and never completes |
| `DomeMove.CompletedStays` | crates/app-api/src/dome_move.rs:20-32 | Further calls on a completed move change nothing |
| `HostingLog.CompactAppend` | crates/app-api/src/dome_hosting.rs:742-767 | Appending to the kept records and compacting equals compacting the whole log, and both give the same next epoch |
| `HostingLog.SameLeaseIff` | crates/app-api/src/dome_hosting.rs:986-1016 | Compaction keeps the current lease if and only if the top epoch has a lease or none was ever issued |
| `HostingLog.SameViewIff` | crates/app-api/src/dome_hosting.rs:785-808 | Compaction keeps lease, activation and close of an instance generation if and only if the top epoch has a lease of that generation or the generation has none |
| `HostingLog.TopView` | crates/app-api/src/dome_hosting.rs:785-808 | What is kept of a log whose unique lease is of this generation and at the top shows that lease, and the last activation and last close of its epoch |
| `HostingLog.CurrentIsFirst` | crates/app-api/src/dome_hosting.rs:986-1016 | A unique current lease is the first that was stored of the highest issued epoch, and all of that epoch are that lease |
| `HostingLog.ConflictIs` | crates/app-api/src/dome_hosting.rs:1005-1015 | A conflict is two different leases of the highest epoch |
| `HostingLog.CurrentIsHighest` | crates/app-api/src/dome_hosting.rs:986-1016 | The current lease is a lease of the highest issued epoch |
| `HostingLog.IssueIsUniqueIff` | crates/app-api/src/dome_hosting.rs:972-1016 | From any log, one issue step leaves a unique current lease if and only if the epoch is below the u64 limit or all leases at the limit are that lease |
| `HostingLog.LimitExample` | crates/app-api/src/dome_hosting.rs:972-1016 | A second lease at the largest epoch leaves a conflict |
| `DomeDelete.KeptShowsAll` | crates/app-api/src/dome_hosting.rs:884-903 | On every log that hosting operations write, the kept records show what the whole log shows |
| `DomeDelete.Owner.Persist` | crates/app-api/src/dome_hosting.rs:742-767 | One write; the kept log stays the compaction of everything ever written, and closed generations stay closed |
| `DomeDelete.Owner.Issue` | crates/app-api/src/dome_hosting.rs:75-238 | Issues exactly when the owner may host and no deletion is journalled; below the limit the new lease is the unique current one, shown with the activation that was signed with it, or none, and no close; the signed acceptance and activation are stored for its epoch |
| `DomeDelete.Owner.Activate` | crates/app-api/src/dome_hosting.rs:240-282 | Adds acceptance and activation of the current community-node lease, exactly without a journalled deletion, and no lease; both are stored for the epoch of that lease, and the view of its generation shows that lease with this activation and the close it had |
| `DomeDelete.Owner.Close` | crates/app-api/src/dome_hosting.rs:295-329 | Appends the close of the current lease of the instance's generation, after which all its kept leases are closed and the view shows that lease, the activation it had and this close; no fault and a unique lease suffice |
| `DomeDelete.Owner.Delete` | crates/app-api/src/dome_delete.rs:111-271 | Stopped anywhere: no lease is added to a journalled generation, a tombstoned one has its leases closed; a resumed deletion completes if and only if, while the instance is active, its leases are not in conflict |
| `DomeDelete.Owner.Begin` | crates/app-api/src/dome_delete.rs:126-172 | The journal is loaded for the same operation only, or created exactly for an active, undetached instance of that generation without conflicting leases, with the URL of its community node |
| `DomeDelete.Owner.CloseForDeletion` | crates/app-api/src/dome_delete.rs:181-196 | The lease is closed and the close journalled before anything is buried |
| `DomeDelete.Owner.Bury` | crates/app-api/src/dome_delete.rs:222-270 | Room, canonical instance and cache become tombstones before the journal is completed |
| `DomeDelete.Owner.Recreate` | crates/app-api/src/game.rs:309-384 | A new generation exactly over no instance or a tombstone whose deletion, if any, is completed; room, canonical instance and cache row are three writes |
| `DomeDelete.ConflictExample` | crates/app-api/src/dome_delete.rs:181-184 | A journalled deletion that a conflict of leases at the largest epoch keeps from going on |
| `DomeDelete.AllClosedAppend` | crates/app-api/src/dome_delete.rs:290-309 | Without a new lease of a generation, its leases stay closed through every append and compaction |
| `Selection.SelectedProposals` | crates/app-api/src/dome_connections.rs:641-664 | The result is the winners of the slots by proposal: each has the highest generation of its slot, and among those of that generation the smallest envelope id; every winner is there, with its slot or one later by instance id and then clockwise from north |
| `Selection.WinnerBySlot` | crates/app-api/src/dome_connections.rs:644-659 | After the loop each slot that was selected for holds the selection with the highest generation, and among equals the smallest envelope id |
| `Order.StrLessIff` | crates/app-api/src/dome_connections.rs:651-658 | A text is smaller exactly when it ends where the other goes on, or has the smaller character where they first differ |
| `Selection.WinnersUnique` | crates/app-api/src/dome_connections.rs:641-664 | The winners depend on the set of selections alone |
| `Selection.ResultUnique` | crates/app-api/src/dome_connections.rs:641-664 | So does the result by proposal: order and repetition do not matter |
| `Selection.MergeIsUnion` | crates/app-api/src/dome_connections.rs:651-658 | Merging winners equals pooling the selections |
| `Selection.MergeLaws` | crates/app-api/src/dome_connections.rs:651-658 | Merging is commutative, associative and idempotent |
| `Selection.AcceptWinsIff` | crates/app-api/src/dome_connections.rs:355-367 | An accepted selection beats all seen for its slot if and only if none stands at the u64 limit |
| `Selection.WrapExample` | crates/app-api/src/dome_connections.rs:355-367 | At the largest generation the accepted selection loses |
| `LiveOverlay.AdmissibleIff` | crates/app-api/src/live_overlay.rs:122-147 | For every time and clock reading of an `i64`: the checks pass exactly when the push is well formed, for this topic and public channel, at most 4096 bytes, sent less than ten seconds ago and at most two seconds ahead, and the clock is not at its end |
| `LiveOverlay.Seen.Prune` | crates/app-api/src/live_overlay.rs:54-59 | Exactly the expired events go, and both structures stay in agreement |
| `LiveOverlay.Seen.Record` | crates/app-api/src/live_overlay.rs:122-177 | The outcome and the new ledger for every envelope: refused, exactly outside that window or form, duplicate, full, exactly with 4096 live events, or accepted and entered |
| `LiveOverlay.Seen.Get` | crates/app-api/src/live_overlay.rs:179-183 | Prunes and returns what is still live |
| `LiveOverlay.SameSize` | crates/app-api/src/live_overlay.rs:47-51 | Map and expiry set hold the same ids, so they are of one size |
| `LiveOverlay.Bounded` | crates/app-api/src/live_overlay.rs:160-173 | At most 4096 events after every run |
| `LiveOverlay.NeverLost` | crates/app-api/src/live_overlay.rs:54-59 | No run of operations loses or changes an event before its expiry |
| `LiveOverlay.AcceptedOnce` | crates/app-api/src/live_overlay.rs:147-164 | With a clock that does not go back, no event id is accepted twice in any run, sent ahead or not, saturation included |
| `LiveOverlay.HeldIffNotPruned` | crates/app-api/src/live_overlay.rs:54-59 | From its acceptance on, an event is in the ledger exactly until a prune at or after its expiry |
| `LiveOverlay.AcceptedAgainIff` | crates/app-api/src/live_overlay.rs:147-164 | Whatever the clock does, an admissible receipt with room is accepted again if and only if the ledger was pruned at or after the expiry since the last acceptance |
| `LiveOverlay.ClockBackExample` | crates/app-api/src/live_overlay.rs:147-164 | With a clock that goes back an event is accepted twice |
| `Paging.WalkIsExact` | crates/app-api/src/timeline.rs:545-608 | Pages that follow one another are the visible rows up to the last cursor, once each and in order; all of them when the last has no cursor |
| `Paging.VisibleNewest` | crates/store/src/pagination.rs:63-90 | What is returned is strictly newest first |
| `Paging.StorePageEnd` | crates/store/src/pagination.rs:63-90 | A store page is the range of rows from its cursor to its next cursor, or to the end |
| `Timeline.TakeVisible` | crates/app-api/src/service/projection_support.rs:50-76 | Adding one store page leaves exactly the visible rows up to the position it returns |
| `Timeline.FilteredPage` | crates/app-api/src/service/projection_support.rs:78-114 | A filtered page passes at most four store pages of `limit`, but at least twenty, rows, is short with a cursor only after all of them, and leaves a cursor at the last row of the table only where a store page ended there; it is a proper page of the walk and moves on |
| `Timeline.ContinuePast` | crates/app-api/src/timeline.rs:696-723 | What the newest-first cut does to a page |
| `Timeline.CutPageIff` | crates/app-api/src/timeline.rs:704-722 | A cut page is a proper page of the walk if and only if the read-past position lies strictly past the request cursor |
| `Timeline.CutPageStalls` | crates/app-api/src/timeline.rs:704-722 | Otherwise the cut page is empty and the next request repeats rows or does not move |
| `Timeline.ListTimeline` | crates/app-api/src/timeline.rs:545-608 | A timeline request on a fixed projection returns a proper page whatever the reconcile reports past its cursor |
| `Timeline.WalkTimeline` | crates/app-api/src/timeline.rs:545-608 | Following the cursors under any read-past positions ends with every visible row once, in order |
| `PublicChannels.VisibleChannels` | crates/app-api/src/public_channel_list.rs:87-127 | Each call returns a proper page and a cursor that has moved on, also after four skipped pages |
| `PublicChannels.TakeRows` | crates/app-api/src/public_channel_list.rs:108-117 | Rows of one store page are added up to the limit, deleted and hidden ones passed over |
| `PublicChannels.WalkChannels` | crates/app-api/src/public_channel_list.rs:87-127 | Following the cursors ends with exactly the rows that are neither deleted nor hidden, once each and in order |
| `Bookmarks.ListPage` | crates/app-api/src/timeline.rs:155-209 | The page, its two cursors and its visible rows, in both directions, as ranges of the table; a newer page needs a cursor |
| `Bookmarks.OlderPageOk` | crates/store/src/memory/bookmarks.rs:157-190 | An older page is the range between its cursors |
| `Bookmarks.WalkOlder` | crates/app-api/src/timeline.rs:155-209 | The older walk returns the whole table, each row once |
| `Bookmarks.ThereAndBackIff` | crates/app-api/src/timeline.rs:165-196 | Going to the newer page and back returns the same page, rows and both cursors, if and only if it has rows and a row is newer |
| `Bookmarks.NewerComesBack` | crates/app-api/src/timeline.rs:165-196 | From a page reached by going newer, going newer again and back always returns to its rows and newer cursor, and to its older cursor too exactly when the id it was asked from is stored just in case some row is not newer |
| `Bookmarks.NoWayBackExample` | crates/app-api/src/timeline.rs:165-196 | A page with no newer row, from which nothing leads back |
| `Bookmarks.NewerIsAdjacent` | crates/store/src/memory/bookmarks.rs:170-176 | The newer page lies directly above the page it was asked from |
| `SyncDelta.SyncStatusDelta` | crates/app-api/src/sync.rs:16-131 | The delta is the snapshot cut to the dirty topics with the gone ones listed; the overall state is the best of connection and topics and does not depend on the keys |
| `SyncDelta.NormalizedIff` | crates/app-api/src/service/attachment_support.rs:351-360 | A topic is shown under its name, or what follows one `hint/`, exactly when that is not the name of a private or public channel, a direct message or an account |
| `SyncDelta.StatusIff` | crates/app-api/src/sync.rs:42-72 | A topic is in the snapshot exactly when some entry is shown as it; it is live with a peer in some entry, else ready with something received, else recovering with helpers, else offline |
| `SyncDelta.OverallIff` | crates/app-api/src/sync.rs:33-86 | The overall state in terms of connection, peers, what was received, helpers and subscriptions |
| `SyncDelta.DirtyTopics` | crates/app-api/src/sync.rs:84-93 | The dirty topics under their shown names; other keys add none |
| `SyncDelta.Normalize` | crates/app-api/src/service/attachment_support.rs:378-396 | The loop that merges diagnostics under their shown names |
| `SyncDelta.MergedIsMost` | crates/app-api/src/service/attachment_support.rs:378-396 | No entry of a shown topic has more peers than the one kept |
| `SyncDelta.MergedIsOne` | crates/app-api/src/service/attachment_support.rs:378-396 | The one kept is an entry of that topic |
| `SyncDelta.BestOneMore` | crates/app-api/src/service/attachment_support.rs:404-413 | Combining states one by one gives the best of all |
| `SyncDelta.FoldIff` | crates/app-api/src/sync.rs:84-105 | A folded delta makes a client's table the snapshot if and only if the dirty keys cover every topic that differs |
| `SyncDelta.ClientIsCurrent` | crates/app-api/src/sync.rs:84-105 | Over every run whose dirty sets cover the changes, the client's table is the snapshot |
| `SyncDelta.SummaryIsNotEnough` | crates/app-api/src/sync.rs:41-72 | A change of the helper count changes topic statuses, which a summary key does not cover |

## Left out

- Signatures, encryption, hashing, envelope parsing and JSON: an envelope verifies or does not, and an id determines its content.
- Gossip hints, transport, heartbeats, subscriptions and in-memory sessions: they do not change the modelled stores.
- Wall-clock waiting, timeouts and scheduling: a timeout is a reader without an answer; nothing is said about how soon a step happens.
- Several devices or several explicit rotations of one channel at once: one controlling device, one rotate call at a time; `OpenWriteSafeIff` says what a delayed one does.
- Leaving a channel, transfer of the controlling device and the participant documents of a commit.
- Two moves of one source, and a move resumed after a deletion of its source: stated per move id with no other writer.
- Termination of Dome connections inside a deletion, the release of a community node after it, and the check that an operation id is well formed.
- `resolve_dome_hosting_state` and lease durations: only the choice of records is modelled.
- Thread pages (oldest first), the reconcile functions and the choice of candidates in `reconcile_public_channel_range`: they would add members of the same kind.
- Reclaiming of protected content by size and age in topic retention, and the taking in of one record (a choice: complete, incomplete, refused).
- 64-bit hash collisions of key versions in the retention scan.
- The follow graph: some participants are mutual friends throughout, some never, and for the others it is a choice at the moment of the grant.
- RetentionStep.TopicRetention.Step: counts a target as accounted for when it was given up after more than five failures or because the retry table was full, since the code keeps it in the count of failures only.
- RetentionStep.TopicRetention.Step: an entry that arrives while a step runs counts as arrived before it if the step's answers hold it, and after it otherwise, since each index of a day is asked once in a step.
- RetentionStep.TopicRetention.Step: does not promise that nothing is passed of a reader that gives up where the page passes a key it has not read, because the promise fails there; `ReaderNoGapIff` is the exact condition, and such a reader is not steady in that step.
- Rotation.NextEpoch: does not model the saturation of start times at the largest `i64`, because ids are promised to be later than their source only below it.
- RotationDevice.Device.SetEntry: does not model a policy write between its read and its write, because the promise fails there; `EntryWriteSafeIff` states when it holds.
- SyncDelta.SyncStatusDelta: does not model the order of the list of topics, because clients keep a table by topic.
- Bookmarks.ListPage: does not model a table that changes between two pages.
