# Verification of the firmware's stateful protocols

The firmware reads a heat pump over serial lines and Modbus, keeps a day of history in memory and several
in flash, and serves it over HTTP and MQTT from one small controller. Most of what can go wrong in it goes
wrong between steps: a power cut in the middle of a flash write, a task that is overtaken between reading a
clock and taking a lock, a request abandoned while it is being answered. This project models those protocols
in Dafny and proves what they promise for every run.

| Files | What they model |
|---|---|
| `FlashLog`, `FlashAppend`, `FlashRuns`, `FlashOrder`, `FlashTheorems`, `FlashSurvival`, `FlashBudget`, `FlashRestore`, `FlashOutcomes`, `FlashReached` | The flash journal: slots and sectors, an append whose every flash operation may fail or be cut, boots, the order of the log, how long records live, the abandon budget, and the restore; the runs that reach its awkward cases |
| `FlashJournal` | The same journal as the firmware runs it, in arrays and fields updated in place, proved equal to the functions above |
| `JournalService` | Which source's record is appended next, behind which manifest, and in whose turn |
| `Raster`, `TrendRings` | The shared five-minute raster and its rings |
| `CheckupWindow`, `CheckupRing`, `CheckupJournal`, `CheckupIndex` | The rolling day of the checkup, its two rings in place, how its hours reach the journal, and which of their copies a boot restores |
| `Deadline`, `DeadlineDevice` | The HTTP deadline guard: every interleaving of owners, timer and watchdog, and `arm` and `disarm` as they are written |
| `Probe`, `ProbeDevice` | The register probe between submitters and the poll task |
| `X10aCache` | The X10A value cache, its announced revision and the state ages folded with it |
| `HomeHubSnapshot`, `HomeHubLink`, `HomeHubTask` | The HomeHub cache behind two mutexes, and the life of its worker task |
| `Framing`, `CaptiveDns`, `HeapLadder`, `RetirementStore` | Modbus TCP framing, the portal's DNS responder, the two recovery ladders over boots, and the retirement record against a factory reset |
| `Options`, `Counting` | An optional value; counting distinct numbers |

Concurrency is modelled as one atomic step for each lock section or atomic operation, in any order, with an
invariant over all orders. Sizes are symbolic where the code does not depend on them (the number of slots,
of sources, of guards, of rings); constants the code relies on have its values.

## Findings

Six things one would expect of the code, or that its comments say, do not hold as they stand. Each has a
lemma that reaches the failing case, and one that says exactly when the property holds.

- **The abandon budget can be exceeded by one sector.** The comments at `main/history.cpp:2531-2534` and
  `main/logic/history_persist.hpp:531-545` promise at most two abandoned sectors in a failure episode. A torn
  slot met by the *first* attempt of an episode makes the cursor leave a sector without being counted, since
  there is no earlier failing slot to compare with (`main/history.cpp:2538-2546`). One power cut in a record's
  body is enough (`FlashOutcomes.BudgetOverrunHappens`). The budget holds if and only if the slot the episode
  starts at is erased or the first of its sector (`FlashBudget.BudgetExactly`).
- **A sector skipped with valid records in it puts the log out of order.** After the chip has been filled once,
  two unreadable probes and a good append are enough (`FlashReached.DirtySkipHappens`). A step keeps the log in
  order if and only if a record that it lands has nothing between its slot and the newest record that the
  preparation of that slot left (`FlashOrder.StepIsChronologicalExactly`), and a run if and only if each of its
  steps does (`FlashOrder.RunIsChronologicalExactly`).
- **A retry can push the oldest bucket out of the restored window.** An append that lands but cannot be read
  back is repeated, and the bucket then has two records; the restore index holds 288 records, not 288 buckets
  (`main/history.cpp:2121-2122`). With a full day journaled the oldest bucket shows a gap although its record is
  there (`FlashReached.CopyCostsOldest`). A bucket is restored from its latest record if and only if fewer than
  288 records of the source lie in front of that one (`FlashRestore.LastWriterWins`,
  `FlashOutcomes.RestoreAfterRun`).
- **Probe tickets must differ from a completion nobody consumed, too.** Counting the tickets drawn during one
  service is not enough: a completion that is still unconsumed carries a stamp that matters as well. Two draws
  fewer than there are tickets, all during one service, lead to a state with nothing in service in which the next
  draw collides (`Probe.StaleTicketHappens`). A draw is safe if and only if its ticket differs from both
  (`Probe.DistinctExactly`).
- **A late visitor's reset shortens its ring.** An identity reset seeds as many gaps as its own, possibly old,
  bucket had before it (`main/history.cpp:1405-1413`), so the ring stays shorter than the others until it is
  full, where `main/logic/history.hpp:416-419` wants one time window for all: a visit at bucket 1 and a resetting
  one at bucket 0 show it (`Raster.LateResetShortens`). The lengths agree if and only if the visitor was not
  late, or a day had passed (`Raster.ResetLength`); alignment is not affected (`Raster.EveryRingIsAligned`).
- **A run booked into an hour that an expiry has just retired outlives its day.** The sample's clock is read
  before the lock and the expiry's inside it (`CheckupWindow.OvertakenRunOutlives`). The window after an expiry
  is the last day if and only if no slot shows something without a deadline (`CheckupWindow.WindowIsTheLastDay`).
  Such a slot appears exactly with a sample that ends a run whose start hour is still held and has been retired,
  and stays until it is pushed out or wiped (`CheckupWindow.StaleExactly`). Lagging clocks do no harm otherwise,
  and the separate hot-water window is always exact.

## Model

| member | source | states |
|---|---|---|
| `FlashTheorems.CrashSafety` | main/history.cpp:2027-2075 | Whatever step of any run from a blank chip is cut, the next boot takes the highest committed sequence as head, continues behind and above it, finds every record outside the one sector being entered unchanged, and nothing new but the record in progress |
| `FlashTheorems.StepChanges` | main/history.cpp:2181-2208 | A record disappears only from the sector whose first slot the attempt targets, that sector never holds the newest acknowledged record, and a record appears only at the target |
| `FlashTheorems.RetiresOldestFirst` | main/history.cpp:2181-2208 | What an attempt erases is older than every record it leaves, but for an unacknowledged copy at the cursor |
| `FlashSurvival.TargetIsNear` | main/logic/history_persist.hpp:524-545 | Whatever has failed since the last acknowledgement, an attempt goes at most three sectors beyond the newest acknowledged record |
| `FlashSurvival.RecordSurvives` | main/history.cpp:2181-2208 | Over boots, failures, retries and power losses a record stays as it is until the newest acknowledged one has come round to the third sector before the record's own |
| `FlashSurvival.AcknowledgedSurvivesLap` | main/history.cpp:2181-2208 | From a blank chip on, an acknowledged record outlives a whole lap of the log but for three sectors and its own |
| `FlashSurvival.RetentionExactly` | main/logic/history_persist.hpp:580-611 | While nothing fails, a record is retained if and only if the appends since have not yet entered its sector; after that it never comes back |
| `FlashTheorems.LogIsChronological` | main/history.cpp:2084-2139 | Over boots, failures and cuts without a dirty skip, the walk back from the newest record meets strictly decreasing sequences |
| `FlashTheorems.DirtySkipBreaksOrder` | main/history.cpp:2569-2573 | From any state with an older record in the cursor's sector, two unreadable probes and a good append put the log out of order |
| `FlashTheorems.BootTakesHead` | main/history.cpp:2073-2075 | The boot's cursor and sequence follow the highest committed record, or start fresh on an empty log |
| `FlashTheorems.CutRecovers` | main/history.cpp:2471-2515 | Every single event keeps all records outside the entered sector, adds only its own record, and keeps sequences unique |
| `FlashRuns.RunSafe` | main/history.cpp:2471-2515 | In every run sequences are unique and below the next one, the newest acknowledged record is in place, and the cursor is on a short leash from it |
| `FlashRuns.AttemptSafe` | main/logic/history_persist.hpp:502-506 | An attempt never reuses a sequence and never touches the newest acknowledged record |
| `FlashRuns.RunKeepsLast` | main/history.cpp:2471-2515 | The newest acknowledged record is only ever superseded by one with a higher sequence |
| `FlashRuns.Head` | main/history.cpp:2045-2075 | The scan's head is a record with no higher sequence anywhere; without one all sequences are zero |
| `FlashAppend.AppendEffect` | main/history.cpp:2471-2515 | All an attempt can do to any slot, to the cursor and to the next sequence, whatever its flash operations report |
| `FlashAppend.EraseSector` | main/history.cpp:2188-2191 | A successful erase clears the whole sector; a failed or cut one loses at most that sector's slots and invents nothing |
| `FlashLog.LandedKeepsOrder` | main/history.cpp:2480-2487 | A record with a new highest sequence at a free cursor keeps the log in order and becomes the newest |
| `FlashLog.AbandonKeepsOrder` | main/logic/history_persist.hpp:512-515 | Moving to the next sector keeps the order when no older record stays behind the cursor |
| `FlashLog.BootKeepsOrder` | main/history.cpp:2073-2075 | Continuing behind the head keeps the order, wherever the cursor was before the reset |
| `FlashOrder.StepKeepsOrder` | main/history.cpp:2181-2208 | Every boot, append, failure and cut keeps the order unless it skips a dirty sector |
| `FlashOrder.ChronologicalAppendExactly` | main/history.cpp:2084-2139 | A newer record put into a free slot keeps the backward order if and only if no record lies between head and slot |
| `FlashOrder.StepIsChronologicalExactly` | main/history.cpp:2471-2515 | An append with its slot preparation, however its flash operations end, keeps the backward order if and only if a record that it lands has nothing between its slot and the newest record the preparation left |
| `FlashOrder.RunIsChronologicalExactly` | main/history.cpp:2084-2139 | The log is in order throughout a run of boots, appends, failures and cuts if and only if every record landed that way |
| `FlashReached.DirtySkipHappens` | main/history.cpp:2569-2573 | Filling a blank chip once, two unreadable probes and a good append reach a log that is out of order |
| `FlashBudget.BudgetExactly` | main/history.cpp:2537-2574 | An episode abandons at most two sectors if and only if its first attempt can use the slot it starts at |
| `FlashBudget.EpisodeBounds` | main/history.cpp:2537-2574 | An episode has at most one torn-slot jump and leaves at most one sector more than the budget |
| `FlashBudget.PausedStays` | main/logic/history_persist.hpp:563-570 | With the budget spent, a refused attempt leaves the cursor where it is |
| `FlashBudget.OverrunExists` | main/history.cpp:2538-2546 | From a torn start four failing attempts leave three sectors |
| `FlashOutcomes.BudgetOverrunHappens` | main/history.cpp:2199-2207 | That start is reached from a blank chip by one good append, one cut in a body and a boot |
| `FlashOutcomes.RestoreAfterRun` | main/history.cpp:2747-2793 | After every clean run whose writers do not go back, a bucket of the newest window is restored from its latest record if and only if fewer than 288 of the source's records lie in front of that one; otherwise, and without a record, it is a gap |
| `FlashRestore.LastWriterWins` | main/history.cpp:2082-2139 | Index and batched replay together give the latest record's value for each bucket of the window if fewer than 288 of the source's records lie in front of it, and a gap otherwise and elsewhere |
| `FlashRestore.IndexedExactly` | main/history.cpp:2117-2133 | A record is indexed if and only if it lies in the window and fewer than 288 of the source's records lie in front of it |
| `FlashReached.CopyCostsOldest` | main/history.cpp:2121-2122 | A clean run from a blank chip in which one append is read back only on its retry loses the oldest bucket of a full window |
| `FlashRestore.WalkCompletes` | main/history.cpp:2117-2133 | Stopping a source's walk at the first record older than its window loses nothing the window needs |
| `FlashRestore.NothingLeftOut` | main/history.cpp:2117-2133 | With one record for each bucket the bounded index holds every record of the window |
| `FlashRestore.ReplayKeepsNewest` | main/history.cpp:2772-2773 | Replaying the index oldest first leaves each bucket with the value of its first index entry, or a gap |
| `FlashJournal.Journal.AppendRecord` | main/history.cpp:2591-2607 | The append as written, with its accounting, takes chip, cursor, sequence and failure state exactly where the run model says |
| `FlashJournal.Journal.AppendRecordAt` | main/history.cpp:2471-2515 | The attempt as written has exactly the specified image, cursor and outcome |
| `FlashJournal.Journal.PrepareNextSlot` | main/history.cpp:2181-2208 | The slot search as written erases, jumps and declines exactly as specified |
| `FlashJournal.Journal.NoteAppendFailure` | main/history.cpp:2537-2574 | The failure accounting as written |
| `FlashJournal.Journal.FindHead` | main/history.cpp:2043-2071 | The sector-wise first pass finds the highest sequence and counts the records |
| `FlashJournal.Journal.IndexSources` | main/history.cpp:2084-2139 | The shared backward walk, with both of its early exits, leaves for every source the index its own complete walk would |
| `FlashJournal.Journal.Boot` | main/history.cpp:2027-2168 | Both passes together: cursor, sequence and indexes of a readable chip |
| `FlashJournal.Journal.RestoreBatch` | main/history.cpp:2747-2793 | One batch rebuilds each of its rings exactly as the replay does |
| `JournalService.FiledIncreases` | main/history.cpp:2290-2301 | Within a boot without cursor resets the buckets filed for a trend source strictly increase |
| `JournalService.FiledWithinRing` | main/history.cpp:2290-2301 | Nothing is filed beyond the source's anchor or behind its live ring |
| `JournalService.PassedAtMostOnce` | main/history.cpp:2836-2882 | A source that stays ready is passed by each other source's data at most once, and only by those between the turn and it |
| `JournalService.ManifestFirst` | main/history.cpp:2848-2869 | Each manifested data record lies in the span of a manifest appended before it, and the append after a manifest is its own source's data; a manifest that cannot be built writes nothing |
| `JournalService.TargetMovesForward` | main/history.cpp:2225-2301 | A builder's target lies beyond the cursor and beyond the bucket an adopted sample was already filed under |
| `JournalService.Service.Seek` | main/history.cpp:2838-2847 | The inner loop stops at the first ready source from the turn, and only builders up to it have looked |
| `JournalService.Service.ServiceJournal` | main/history.cpp:2820-2884 | A service call does nothing while the journal is closed or its pause lasts, and otherwise writes until its limit, a refusal, a manifest that cannot be built or nothing ready, exactly as consecutive rounds do |
| `Raster.EveryRingIsAligned` | main/history.cpp:494-528 | Under any interleaving of producers with old clock readings, the open bucket is the newest read, and each ring's k-th newest sample is what was folded into the bucket k before the last closed one |
| `Raster.RingsReachBack` | main/logic/history.hpp:420-433 | Every ring reaches back to boot or a whole day, unless a late visitor reset it |
| `Raster.ResetLength` | main/history.cpp:1405-1413 | A reset ring is as long as the others if and only if its visitor was not late, or a day had passed |
| `Raster.LateResetShortens` | main/history.cpp:1405-1413 | A visit at bucket 1 and a late one that resets leave two rings of different length |
| `Raster.BucketShowsLast` | main/logic/history.hpp:627-629 | A bucket shows its last reading, failing that the last reason for absence |
| `Raster.EventIsKept` | main/logic/history.hpp:634-638 | A bucket of an event ring shows the event if and only if it was seen |
| `TrendRings.SharedRaster.Visit` | main/history.cpp:1226-1239 | A producer's critical section over all rings has exactly the specified effect |
| `TrendRings.SharedRaster.Advance` | main/history.cpp:494-528 | The advance over all rings has exactly the specified effect, and none for a bucket behind |
| `TrendRings.TrendRing.Commit` | main/logic/history.hpp:644-648 | The in-place commit pushes the open bucket and one gap for each skipped one, newest first, capped at a day |
| `TrendRings.TrendRing.SampleFromNewest` | main/logic/history.hpp:672-677 | Reading by age gives the sample at that age, or none beyond the ring |
| `CheckupWindow.WindowIsTheLastDay` | main/checkup.cpp:854-878 | Whatever clocks and producers do, the window after an expiry shows exactly what was booked for hours that began less than a day ago if and only if no slot is stale; the hot-water window always does |
| `CheckupWindow.RunKeeps` | main/checkup.cpp:747-799 | Through samples, skips, resets and expiries in any order each dated slot holds exactly its own hour's evidence and deadline, and an undated one nothing less than a day old |
| `CheckupWindow.StaleExactly` | main/checkup.cpp:747-799 | A slot is stale after a step if and only if the step ended a run whose held start hour had lost its deadline, or a stale slot was not yet pushed out or wiped |
| `CheckupWindow.StepStaysExact` | main/checkup.cpp:703-706 | From an exact window a step leads to an exact one if and only if it ends no such run |
| `CheckupWindow.OvertakesByClock` | main/checkup.cpp:703-706 | While no sample comes a whole day late, such a run is one whose held start hour was over a day old at the last expiry |
| `CheckupWindow.EveryRunIsExact` | main/checkup.cpp:854-878 | Every run without such a sample shows exactly the last day at every expiry, however far its clock readings lag |
| `CheckupWindow.NeverOvertaken` | main/checkup.cpp:703-706 | In particular there is none while no sample's clock is behind an expiry before it |
| `CheckupWindow.OvertakenRunOutlives` | main/checkup.cpp:854-878 | A run ended by a sample that an expiry overtook is shown after its day |
| `CheckupRing.DeadlinesShift` | main/checkup.cpp:758-778 | Clearing the overwritten deadlines and dating the closed hour moves the deadlines exactly as the pushes move the hours |
| `CheckupRing.Ring.Commit` | main/logic/checkup.hpp:411-423 | The in-place commit shifts the ring by the open hour and one empty hour for each skipped one |
| `CheckupRing.Checkup.Record` | main/checkup.cpp:703-799 | The lock section of a sample as written, with its exit for a sealed hour, its wipe in place of the sample and its hot-water reset before it, keeps both rings at one head and count and has exactly the specified effect |
| `CheckupRing.Checkup.RecordSample` | main/checkup.cpp:741-798 | One sample closes the hour before it, is folded, books the run that it ends, and adds its hot-water evidence |
| `CheckupRing.Checkup.CommitHours` | main/checkup.cpp:758-788 | Closing an hour pushes evidence, hot-water evidence and deadline together |
| `CheckupRing.Checkup.ExpireHours` | main/checkup.cpp:854-878 | The expiry loop retires exactly the slots, and the open hour, whose deadline has come |
| `CheckupRing.Checkup.ResetHotWater` | main/checkup.cpp:316-332 | The hot-water reset empties that ring and leaves the shared geometry and deadlines alone |
| `CheckupRing.Checkup.WipeHours` | main/checkup.cpp:285-301 | A wipe leaves both rings, their deadlines and the open hour empty |
| `CheckupJournal.EmitsOwnHour` | main/checkup.cpp:935-993 | An emitted record is one live hour's own slot under that hour's label; it holds what was booked for the hour unless that is over a day old, a stale slot has nothing less than a day old, and hot-water evidence is withheld exactly from hours before its reset |
| `CheckupJournal.EmitsLiveHour` | main/checkup.cpp:935-993 | The slot addressed is in range, for any journal state and clock, and the record's end lies in the hour its label names |
| `CheckupJournal.LabelsNeverDrift` | main/logic/checkup_persist.hpp:437-444 | With a steady wall clock the latched offset never moves, whenever and for whichever hour it is asked |
| `CheckupJournal.AppendsSpan` | main/logic/checkup_persist.hpp:458-467 | The writer appends one unbroken span of hours up to the newest |
| `CheckupJournal.LateRunIsReplayed` | main/logic/checkup_persist.hpp:529-546 | A run that ends after its hour was appended has that hour and all later ones appended again |
| `CheckupIndex.RestoresNewestCopies` | main/logic/checkup_persist.hpp:565-616 | Where replays reach no farther back than a day, the index restores exactly the newest copy of each hour of the day that ends with the newest hour in the journal, although the walk stops early |
| `CheckupIndex.SweepsAreReplayable` | main/logic/checkup_persist.hpp:410-417 | Sweeps of the writer, interrupted or not, under a clock that does not go back leave such a journal |
| `CheckupIndex.WriterSweeps` | main/logic/checkup_persist.hpp:410-417 | What the writer appends from any cursor and any pending revision is such a sweep |
| `CheckupIndex.Bitmap.Step` | main/logic/checkup_persist.hpp:577-601 | One visited record as written, whose fixed offset array never overflows |
| `CheckupIndex.Bitmap.Scan` | main/history.cpp:2105-2160 | Walk and clipping as written give exactly the restored copies and the cursor |
| `Deadline.RunKeeps` | main/http_deadline.cpp:71-107 | Every interleaving keeps the invariant or stops at a shutdown that itself failed; the watchdog never sees a negative socket and its acknowledgement is never refused |
| `Deadline.ExactlyOneToken` | main/http_deadline.cpp:147-228 | An engaged guard has exactly one token among armed timer, callback, notification, shutdown and acknowledgement; without one there is none |
| `Deadline.ShutdownHitsOwner` | main/http_deadline.cpp:76-95 | A pending shutdown is aimed at the very connection of the one engaged guard, which is then bound to report expiry |
| `Deadline.NoLateShutdown` | main/http_deadline.cpp:196-228 | After `disarm` the connection is never shut down again, through any later reuse of its descriptor, until its owner arms for it again |
| `Deadline.DisarmVerdict` | main/http_deadline.cpp:219-223 | `disarm` reports late if and only if the callback had been dispatched or the caller's clock says so |
| `Deadline.LateSticks` | main/http_deadline.cpp:189-194 | Once expiry is certain it stays reported until the guard is armed again |
| `Deadline.JoinProgress` | main/http_deadline.cpp:207-212 | While an owner joins, the awaited step is possible, brings it one nearer, and no other step moves it away |
| `Deadline.JoinTerminates` | main/http_deadline.cpp:207-212 | A join is at most six timer and watchdog steps from its acknowledgement, whatever runs between them |
| `DeadlineDevice.Device.Arm` | main/http_deadline.cpp:147-187 | `arm` as written, with its early exits and arbitrary interference before each operation: armed with a fresh verdict, too late with expiry latched, or refused with the guard as it was |
| `DeadlineDevice.Device.Disarm` | main/http_deadline.cpp:196-228 | `disarm` as written, with arbitrary interference: when it returns the guard is idle, no token is left, and the verdict is exact |
| `Probe.AcceptedIsOwn` | main/hp_poll.cpp:1197-1255 | With tickets in play distinct, an accepted reply answers the submitter's own ticket and register, for any mix of timeouts, throws and late services |
| `Probe.NotOverwritten` | main/hp_poll.cpp:830-833 | No service writes the reply while a submitter copies it |
| `Probe.OnlyOwnWithdrawn` | main/hp_poll.cpp:834-841 | A pending request disappears only when it was answered, its own submitter gives up, or a successor replaces an answered one |
| `Probe.NeverForgotten` | main/hp_poll.cpp:998-1011 | A waiting submitter's request is still pending, or its answer is stamped and its completion given or about to be |
| `Probe.DistinctExactly` | main/logic/hp_probe.hpp:206-234 | A draw keeps ownership if and only if its ticket differs from those of the request in service and of an unconsumed completion |
| `Probe.StaleTicketHappens` | main/logic/hp_probe.hpp:206-234 | Two draws fewer than there are tickets, all distinct, reach a state with nothing in service in which the next ticket is that of an unconsumed completion |
| `Probe.StaleTicketDeceives` | main/hp_poll.cpp:1197-1255 | From that state a submitter accepts another request's reply |
| `Probe.SpaceSuffices` | main/logic/hp_probe.hpp:206-234 | Fewer draws than the ticket space since those requests keep tickets distinct |
| `ProbeDevice.Channel.ProbeRun` | main/hp_poll.cpp:1197-1255 | The submitter's code as written, from its gate on and with interference before each operation: refused exactly without a channel, behind another submitter or without a poll task, and otherwise it accepts only its own answer while tickets in play are distinct |
| `ProbeDevice.Channel.Serve` | main/hp_poll.cpp:795-842 | The service and its catch as written publish the answer of exactly the request they loaded last, and serve what was pending when nothing throws |
| `X10aCache.CacheIsCurrent` | main/hp_poll.cpp:1274-1305 | A non-empty cache belongs to the current target generation |
| `X10aCache.CommitsAsAnnounced` | main/hp_poll.cpp:565-610 | A commit is exactly the announced one, or is refused and changes nothing |
| `X10aCache.AgesBelongToRows` | main/state_dwell.cpp:287-300 | State ages given to a reader were folded from the sweep its rows came from |
| `X10aCache.Cache.CommitSweep` | main/hp_poll.cpp:580-610 | The commit section as written |
| `X10aCache.Cache.ChangeTarget` | main/hp_poll.cpp:1274-1305 | A target change as written leaves an empty cache of no source |
| `HomeHubSnapshot.LiveRowsAreCurrent` | main/hp_modbus.cpp:1597-1641 | Rows called live were read over the session, and for the target, that were current at the status check, and that session had completed a poll |
| `HomeHubSnapshot.LiveMeansUndisturbed` | main/hp_modbus.cpp:1636-1640 | A live answer returns what the cache held at the copy, and no target change fell between copy and last check |
| `HomeHubSnapshot.QuietSnapshotIsLive` | main/hp_modbus.cpp:1597-1641 | After a finished poll, a snapshot that nothing disturbs is live and returns that poll's rows |
| `HomeHubLink.Hub.ValuesSnapshot` | main/hp_modbus.cpp:1597-1641 | The two-lock snapshot as written, with interference in both gaps |
| `HomeHubLink.Hub.CommitPoll` | main/hp_modbus.cpp:1300-1359 | The two-lock commit as written, with interference between check and store and before the link state, ends up live exactly when its socket, session and target are still current |
| `HomeHubTask.OneOwner` | main/hp_modbus.cpp:1495-1518 | At most one task owns the slot, and a started owner is always shown as running |
| `HomeHubTask.OnlyOwnerWrites` | main/hp_modbus.cpp:1470-1488 | A task changes shared state only while it owns the slot, or by taking a free slot for a successor |
| `HomeHubTask.RestMeansWanted` | main/hp_modbus.cpp:1542-1587 | At rest a task runs if and only if one is wanted, unless its creation was refused |
| `HomeHubTask.StepWorks` | main/hp_modbus.cpp:1397-1488 | Between requests every step that changes anything lowers the work left |
| `HomeHubTask.Settles` | main/hp_modbus.cpp:1397-1488 | Any schedule of effective steps rests within the work there was |
| `HomeHubTask.WorkLeft` | main/hp_modbus.cpp:1495-1518 | While work is left some step changes something |
| `Framing.Socket.ReceiveFrame` | main/hp_modbus.cpp:620-632 | A success takes exactly one frame from the stream, however it is cut up; a rejection means an implausible length |
| `Framing.Socket.ReceiveAll` | main/hp_modbus.cpp:587-614 | Exactly the bytes asked for, in order, or a failure |
| `Framing.FramesComeBack` | main/hp_modbus.cpp:620-632 | A stream of frames is taken apart into exactly those frames |
| `CaptiveDns.Respond` | main/captive_dns.cpp:45-95 | The in-place responder replies exactly to acceptable queries, within 512 bytes, and otherwise leaves the buffer alone |
| `CaptiveDns.AcceptsQueries` | main/captive_dns.cpp:51-60 | A datagram is accepted if and only if it is a query with one question whose name and type are complete |
| `CaptiveDns.WalkFindsName` | main/captive_dns.cpp:55-58 | The label walk ends inside the datagram exactly behind the name, and no other name stands there |
| `CaptiveDns.ReplyReads` | main/captive_dns.cpp:61-94 | Read back, the reply has the query's identification, question and recursion bit, no error, and the portal's address under the name asked for |
| `HeapLadder.RestartsAreCapped` | main/heap_guard.cpp:211-274 | Without a clean boot and with restart-counter writes succeeding, restarts never exceed the rungs left |
| `HeapLadder.LadderEndsMinimal` | main/heap_guard.cpp:102-157 | From a clean boot, which runs the full stack, at most five restarts follow, and the boot after the fifth is minimal |
| `HeapLadder.MinimalUntilClean` | main/heap_guard.cpp:135-151 | A minimal boot cannot restart itself, and every boot stays minimal until a clean one |
| `HeapLadder.AlternatingFaultsEnd` | main/logic/boot_guard.hpp:209-241 | A fault alternating between crashes and restarts gets at most nine full boots, if none of them stays up long enough to count as healthy |
| `HeapLadder.FailingWritesUncapped` | main/heap_guard.cpp:243-246 | With failing counter writes any number of restarts can follow |
| `HeapLadder.RestartExactly` | main/logic/heap_watchdog.hpp:212-256 | The watchdog acts on a sample if and only if the heap has been low for five minutes since a critical sample, through a wrap of its clock |
| `HeapLadder.HeapGuard.Begin` | main/safe_mode.cpp:31-45 | The boot code as written, marker consumed once, both counters from one classification |
| `HeapLadder.HeapGuard.Sample` | main/heap_guard.cpp:159-276 | The sample code as written, with both factory-reset holds |
| `RetirementStore.ForgottenStaysForgotten` | main/mqtt_retirement_store.cpp:44-79 | A forget that succeeds under the latch leaves no record while the latch holds, whatever saves were under way |
| `RetirementStore.UnlatchedForgetIsNotFinal` | main/mqtt_retirement_store.cpp:44-56 | Without the latch a waiting save writes the record again |

## Left out

- Weak memory effects: steps are sequentially consistent, and generations do not wrap; probe tickets do.
- Flash beyond slots: the checksum is the predicate that a slot reads back intact, an erase that reports success
  has erased, and a read that succeeds returns what is there.
- FlashJournal.Journal.IndexSources: models the walk for trend sources; the checkup's own steps in it are
  `CheckupIndex.Bitmap.Step`, over the checkup's records alone, and the observation archive is not modelled.
- FlashJournal.Journal.Boot: leaves out the clipping of the checkup's index, which `CheckupIndex.Bitmap.Scan` has,
  and the observation archive.
- FlashJournal.Journal.RestoreBatch: leaves out the identity that the circulation column is restored under, and
  the splice into live rings.
- FlashJournal.Journal.AppendRecordAt: has no manifest cache; a manifest that the cache refuses has the effect of
  a failed reading back, which any append may have.
- The stop-context archive and its journal records.
- Splicing restored blocks into live rings, restore verdicts, and adoption of rings that survived a reset.
- Cursor resets inside a boot: `JournalService` follows a source between two of them.
- HomeHubTask.RestMeansWanted: is proved on values and not in `mb_task`'s own loop, because a Dafny method runs
  without interruption; the same holds for the step functions of the other interleaved protocols, whose own
  code is modelled beside them where it decides something.
- HomeHubSnapshot.LiveRowsAreCurrent: takes the two age limits as an arbitrary outcome.
- RetirementStore.ForgottenStaysForgotten: is proved on values, because the races it excludes lie between lock
  sections of different tasks.
- CaptiveDns.AcceptsQueries: takes every length byte up to 255 as a label's length, as the code does, where
  section 4.1.4 of RFC 1035 allows 63; the query's class is not looked at, and the reply's opcode is always zero.
- Noise in the uninitialised restart marker after a software reset: the model lets it hold only what was written.
- Detection confirmation counters, value decoding, catalog rows, diagnosis thresholds, configuration storage,
  transport, log text, watchdog feeding and stack sampling.
- CheckupJournal.EmitsOwnHour: leaves out the open hour that a software restart seals, which is offered when no
  completed hour is due.
- CheckupRing.Checkup.Record: leaves out the gates before its lock section and the evidence's own arithmetic.
- The one-shot hot-water hand-off across a restart.
