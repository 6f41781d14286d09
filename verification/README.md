# Verified model of the ZNAS control plane

A Dafny model of the parts of ZNAS (a web control plane for ZFS storage, written in Go) whose
behaviour depends on interleavings, on calendars, on file systems or on several servers, with
proofs of what they promise. `dafny verify dfyconfig.toml` checks everything.

| file | models |
|---|---|
| `VgaConsole.dfy`, `VgaEffects.dfy`, `VgaGrace.dfy` | the pool of VGA console sessions as a step system; what each critical section leaves behind; when the grace period is granted in full |
| `VgaPool.dfy`, `VgaRuntime.dfy` | the session objects that take those steps; handlers and goroutines that carry out every interleaving on them |
| `Calendar.dfy`, `Cadence.dfy` | the civil calendar; when snapshot, backup and compose-update policies fire, and the next-run scan |
| `Retention.dfy` | count-based retention of scheduled snapshots |
| `LinkTable.dfy`, `LinkStore.dfy` | the table of linked servers: what each request does to it; the slice that holds it |
| `LinkNetwork.dfy`, `LinkSteps.dfy`, `LinkRuns.dfy` | the pairing protocol between servers as interleaved exchanges; when each step can be taken; results over runs |
| `LinkDrops.dfy`, `LinkRepair.dfy`, `LinkMissedRepair.dfy` | what a link, a repair or an unlink leaves after a run with deduplications at any time |
| `LinkClash.dfy` | when entries that deduplication leaves still match |
| `RsyncWindow.dfy`, `RsyncScheduler.dfy`, `RsyncService.dfy` | the daily window; the sync scheduler as a step system; the loops that take those steps |
| `RsyncDeferral.dfy`, `RsyncRequests.dfy`, `RsyncRecords.dfy` | what becomes of a deferred start; what a user's request makes of a sync; what is recorded about it |
| `ConfigFiles.dfy`, `ConfigDir.dfy`, `ConfigNames.dfy`, `ConfigTravel.dfy`, `ConfigRollback.dfy`, `ConfigOverwrite.dfy` | export, import and rollback of the settings directory |
| `EdgeLog.dfy`, `HealthAlerts.dfy`, `PeerWatch.dfy` | edge-triggered notices about pools and linked servers |
| `MapPaths.dfy`, `MapTopology.dfy`, `MapBuilder.dfy`, `MapDocument.dfy`, `MapMeaning.dfy` | path resolution and integrity of the storage map |
| `Text.dfy`, `UpgradeMeta.dfy` | Go's number and text functions; the upgrade meta file |

Code that changes state is a class whose methods change fields, objects and arrays in place, each
proved to take one step of a specification; the results are lemmas about the specification over
every run. Code that only computes is functions.

## Where the code does less than it seems to

Each of these is proved, with the exact condition where there is one.

- A policy "every 1 month" passes validation and never fires (`Cadence.EveryMonthNeverFires`); every
  other accepted policy fires again after every instant (`Cadence.FiresAgain`).
- The next-run scan looks 31 days ahead. For a monthly policy it finds none until 31 days before the next
  fire, so for at least 28 days after every fire (`Cadence.MonthlyNextRun`, `Cadence.NoneShownAfterFire`).
- The console pool does not always grant its 3 s grace. An idle session can be removed before the
  grace period of its last release is over if and only if an older goroutine launched for it is still
  alive (`VgaGrace.CutShortIff`). Unless a handler joined the session after losing a race, that is a
  goroutine that was cancelled and has not yet seen it (`VgaGrace.RaceFreeCutShortIff`). Both happen
  (`VgaGrace.GraceMayBeCutShort`, `VgaGrace.CancelledTimerMayWin`).
- Any list request deduplicates a table, also in the middle of an exchange, and drops every entry that is
  not the earliest of the best with its address (`LinkDrops.DropsIff`). A link ends mirrored if and only if
  no deduplication at the peer dropped the entry named in the reply (`LinkDrops.LinkOverRunMirrorsIff`).
- Repairing a link writes through a pointer taken before the peer was called. The pair ends mirrored if and
  only if, besides, this server made in between no append to a full slice, no unlink on either side and no
  removal of duplicates (`LinkRepair.RepairOverRunMirrorsIff`). In `LinkMissedRepair.RepairMisses` the peer
  has the new secret, this server the old one, and success is reported; in `LinkMissedRepair.RepairIsDropped`
  the peer has lost the entry.
- The unlink of a mirrored pair that reaches the peer leaves neither entry, but reports a removal if and only
  if no deduplication had dropped the peer's entry before (`LinkDrops.UnlinkOverRunRemovesBoth`).
- After two simultaneous links of one pair, the entries that deduplication leaves match if and only if
  one server prefers its own entry and the other does not (`LinkClash.CrossedMatchIff`,
  `LinkClash.LateAcceptMatchesIff`); `LinkClash.SimultaneousLinksDisagree` is a case in which they do
  not.
- A sync deferred to the next opening of its window keeps its deferral over a run if and only if in it no job
  of the same storage that ended by itself reports and nobody clears its pause for a job started earlier
  (`RsyncDeferral.DeferralSurvivesIff`); a fire is lost in `RsyncDeferral.FireIsLost`. Who starts a job
  clears the pause afterwards, and drops the one the job has reported meanwhile
  (`RsyncRequests.RunOutsideWindowIsPaused`).
- Import writes each file under a temporary name ending in `.import-tmp`, which export does not leave
  out. A backup with an ordinary file and such a file beside it may lose the latter, depending on the
  order; every file arrives in every order exactly if there is no such pair (`ConfigTravel.ImportCarriesIff`).
- Import accepts names that lead into the copy it has just made, such as
  `.pre-import-20240101-120000/users.json`, and rollback then puts their content back
  (`ConfigRollback.BackupOverwritesCopy`). It also accepts names that make a copy of their own, such as
  `.pre-import-9/users.json`, and rollback goes back to the directory with the greatest name
  (`ConfigOverwrite.LaterNameFails`). Where no older copy has a later name than the one just made, rollback
  undoes every import of files with given names if and only if no name it may get to makes a later copy or
  leads, itself or by its temporary file, to a file rollback is to put back or a setting it is to remove
  (`ConfigOverwrite.RollbackOfFreshUndoesIff`). In general that copy, the latest, must also hold what was
  there (`ConfigOverwrite.RollbackUndoesIff`). Exports have no such names
  (`ConfigRollback.ExportHitsNothing`).
- A backup whose config.json is the JSON `null` crashes the import when the target has one of the
  machine-local keys, since the program stores into a nil map (`ConfigDir.MergeLocalConfig`).
- The upgrade meta file is read back as written exactly if its version is not empty and its texts are
  trimmed single lines (`UpgradeMeta.RoundTripIff`).

## Assumptions

- VGA console: channels and session objects are new whenever they are made; a handler releases once.
- Cadence: the local clock is at a fixed offset from UTC; instants are whole minutes from the epoch on.
- Pairing: identifiers and secrets are new whenever they are made; every server has one address, and
  different servers have different ones; one pair has one exchange in flight at a time. Equality of
  secrets stands for a valid signature. Losing a request or a reply, or a refusal, may end any
  exchange at any point.
- Scheduler: whether a schedule is due at a tick, and its next run, are arbitrary inputs; starting a
  job may fail; ticks, reports and requests are atomic and come in any order.
- Settings: files are a map from paths to contents; every read, write, rename and removal may fail.
  The directory of a new rollback copy does not exist yet; config.json does, and no copy holds another of
  its own name.
- Alerts: each look at a pool is atomic. Pools and linked servers have distinct names.

## Model

| member | source | states |
|---|---|---|
| VgaConsole.EveryInterleaving | handlers/lxd_vga.go:132-245 | in every reachable state the reference count of each session is the number of handlers holding it, no session is pooled under two names, pooled sessions have their control connection open, and an idle one is guarded by a live, uncancelled goroutine |
| VgaConsole.NothingClosedTwice | handlers/lxd_vga.go:132-245 | no interleaving closes a cancel channel or a control connection a second time |
| VgaConsole.StepKeepsInv | handlers/lxd_vga.go:132-245 | every critical section keeps the invariant that links counts, holders, cancel channels and live goroutines, and cannot fault |
| VgaConsole.RunKeepsInv | handlers/lxd_vga.go:132-288 | so does every run from a state that satisfies it |
| VgaConsole.IdleSessionIsRemoved | handlers/lxd_vga.go:185-229 | a pooled session that nobody holds has a live goroutine whose channel is open, and whose expiry takes it out of the pool, also after a lost race |
| VgaConsole.ExpiryRemovesOnlyUnheld | handlers/lxd_vga.go:213-224 | the timer path removes a session only when no handler holds it |
| VgaConsole.NextIsReachable | handlers/lxd_vga.go:132-245 | an event possible in a reachable state leads to a reachable state without fault |
| VgaEffects.InvalidateClears | handlers/lxd_vga.go:231-245 | in a reachable state, when the holder of the session pooled for a name invalidates it, the pool loses exactly that name, the control connection is closed, the stored channel is closed and forgotten, counts, holders and other sessions stay, and the next handler that asks starts an operation of its own |
| VgaEffects.InvalidateSparesAnother | handlers/lxd_vga.go:234-234 | if another session or none is pooled for the name, nothing happens |
| VgaEffects.GoneIsNotHandedOut | handlers/lxd_vga.go:231-245 | a session that has left the pool is never pooled again and never handed to a handler that did not hold it, over every run |
| VgaEffects.OpenOnlyInPool | handlers/lxd_vga.go:213-224 | in every reachable state the open control connections are those of pooled sessions: none leaks |
| VgaEffects.AcquireReuses | handlers/lxd_vga.go:132-145 | reuse adds one holder, closes and forgets the stored channel, and changes no other session |
| VgaEffects.StartedPools | handlers/lxd_vga.go:178-200 | a new session is pooled with one holder, and with an open control connection exactly if it was made with one |
| VgaEffects.StartedJoins | handlers/lxd_vga.go:185-195 | after a lost race the pooled session has one holder more and keeps a pending teardown |
| VgaEffects.ReleaseLaunches | handlers/lxd_vga.go:202-212 | the last release stores the new channel and launches a goroutine for that session; another one only uncounts |
| VgaEffects.ExpireRemovesIff | handlers/lxd_vga.go:213-224 | an expiry takes the session out and closes its connection if and only if it is still pooled for the name and idle |
| VgaEffects.EnabledWhen | handlers/lxd_vga.go:132-245 | when each critical section may be entered, in a reachable state |
| VgaEffects.FaultsWhen | handlers/lxd_vga.go:136-139 | a step faults exactly when it would close a closed channel or a closed connection |
| VgaEffects.GivesUp | handlers/lxd_vga.go:151-154 | a handler whose operation did not start, and a goroutine that sees its channel closed, only go |
| VgaGrace.CutShortIff | handlers/lxd_vga.go:211-227 | in every reachable state an idle session can be removed by another goroutine than that of its last release if and only if an older goroutine launched for it is still alive |
| VgaGrace.RunKeepsOrderly | handlers/lxd_vga.go:132-245 | in a run in which no handler joins a session after losing a race, every goroutine but the last of a session is cancelled, and a held session has no pending teardown |
| VgaGrace.RaceFreeCutShortIff | handlers/lxd_vga.go:134-143 | in such a run the grace period can be cut short if and only if a goroutine was cancelled and has not yet seen it |
| VgaGrace.GraceMayBeCutShort | handlers/lxd_vga.go:185-195 | after a lost race that did not cancel it, the older timer removes the idle session while the newer is waiting |
| VgaGrace.CancelledTimerMayWin | handlers/lxd_vga.go:212-225 | without a race, a timer that ran out as it was cancelled does the same |
| VgaPool.SessionPool.AcquirePooled | handlers/lxd_vga.go:132-145 | the first critical section of acquire takes exactly the acquire step on the objects, closing a channel that is open |
| VgaPool.SessionPool.InsertOrJoin | handlers/lxd_vga.go:178-200 | the second one pools the new session or joins the one that won the race, without cancelling its teardown |
| VgaPool.SessionPool.Release | handlers/lxd_vga.go:202-229 | release takes the release step; the last holder stores a new channel and launches a goroutine |
| VgaPool.SessionPool.Expire | handlers/lxd_vga.go:213-224 | the expiry of a goroutine takes the expire step: removal only of the session it was launched for, while pooled and idle |
| VgaPool.SessionPool.SeeCancel | handlers/lxd_vga.go:225-227 | a goroutine that sees its channel closed ends and changes nothing else |
| VgaPool.SessionPool.Invalidate | handlers/lxd_vga.go:231-245 | invalidation takes the invalidate step; over the fields: the name leaves the map, the connection is closed, the stored channel is closed and forgotten and no other, or nothing changes if another session is pooled |
| VgaRuntime.Perform | handlers/lxd_vga.go:132-288 | each event is carried out by its handler or goroutine with the pointers it was given, whatever came between |
| VgaRuntime.Interleave | handlers/lxd_vga.go:132-288 | every interleaving possible from the empty pool is carried out by the objects, step by step |
| Calendar.DayNumberOfCivil | handlers/lxd_snap_schedule.go:255-285 | the civil date of every day number is a legal date with that day number |
| Calendar.CivilOfDayNumber | handlers/lxd_snap_schedule.go:255-285 | and the other way round |
| Calendar.YearsInClosedForm | handlers/lxd_snap_schedule.go:255-285 | the days before a year are 365 for each year and one for each leap year of the Gregorian rule |
| Calendar.CalendarRepeats | handlers/lxd_snap_schedule.go:255-285 | every 400 years are 146097 days, a whole number of weeks |
| Calendar.MonthLengths | handlers/lxd_snap_schedule.go:281-282 | the months have 30 or 31 days, February 28, or 29 in years of 366 |
| Calendar.KnownDays | handlers/lxd_snap_schedule.go:255-285 | the day numbers of 1 January 1970, 1 January 2000 and 29 February 2024 |
| Cadence.SavedPolicyIsAccepted | handlers/lxd_snap_schedule.go:93-115 | a save is refused exactly for intervals not in the table; every other value outside its range becomes its default, and those in range are saved unchanged |
| Cadence.IntervalTables | handlers/lxd_snap_schedule.go:32-38 | which intervals the two tables hold |
| Cadence.MinuteProgression | handlers/lxd_snap_schedule.go:230-231 | a minute policy is due exactly on one arithmetic progression of N minutes, across hour ends and for every offset |
| Cadence.HourProgression | handlers/lxd_snap_schedule.go:232-233 | an hour policy is due exactly on one progression of N hours, across midnight |
| Cadence.DayProgression | handlers/lxd_snap_schedule.go:234-239 | a day policy is due exactly on one progression of N days, though the hour is local and the day count UTC |
| Cadence.WeekProgression | handlers/lxd_snap_schedule.go:240-250 | a week policy is due exactly on one progression of N weeks, though weekday and hour are local and the week count UTC |
| Cadence.Progression | handlers/lxd_snap_schedule.go:225-250 | the four together: due exactly when the distance to the residue is a whole number of periods |
| Cadence.MinuteAnchor | handlers/lxd_snap_schedule.go:230-231 | a minute policy is due at every full local hour |
| Cadence.HourAnchor | handlers/lxd_snap_schedule.go:232-233 | an hour policy is due in the hour after local midnight, at its minute |
| Cadence.DayAnchor | handlers/lxd_snap_schedule.go:234-239 | a day policy is due on the first UTC day when the local clock shows its hour and minute |
| Cadence.WeekAnchor | handlers/lxd_snap_schedule.go:240-250 | a week policy is due in the first UTC week on its local weekday, or Sunday if there is no such day, at its hour and minute |
| Cadence.WeekdayAdvances | handlers/lxd_snap_schedule.go:240-244 | the weekday moves on with the local day; 1 January 1970 is a Thursday and 1 January 2000 a Saturday |
| Cadence.WholePeriodsApart | handlers/lxd_backups.go:569-594 | from a due minute, the due minutes are exactly those a whole number of periods away |
| Cadence.FiresApart | handlers/lxd_snap_schedule.go:225-285 | distinct fires of any accepted policy are a period apart, at least 5 minutes, and at least 20 for backups; those of monthly policies 59, 89, 181 or 365 days for N of 2, 3, 6 or 12 |
| Cadence.NextRun | handlers/lxd_snap_schedule.go:287-298 | the scan returns the least due minute after from's minute and before from plus 31 days, or none if there is none |
| Cadence.NextRunUnique | handlers/lxd_backups.go:605-614 | there is only one such answer |
| Cadence.NextRunClosedForm | handlers/lxd_snap_schedule.go:287-298 | for every accepted minute, hour, day or week policy the scan finds a run, at a minute given by a modular formula |
| Cadence.MonthlyDue | handlers/lxd_snap_schedule.go:251-259 | a monthly policy is due in a selected month at one minute, on the clamped day, and in no other month |
| Cadence.MonthlyDueDay | handlers/lxd_snap_schedule.go:251-285 | whenever a monthly policy is due, the date is its day of a selected month, or the last day of a shorter one, at its hour and minute; a day outside 1 to 31 stands for the first |
| Cadence.MonthlyDueExists | handlers/lxd_snap_schedule.go:251-285 | and it is due on that day of every selected month |
| Cadence.FireMinuteDate | handlers/lxd_snap_schedule.go:275-285 | that minute lies in its own month, whatever the configured day and the length of the month |
| Cadence.MonthlyYear | handlers/lxd_snap_schedule.go:251-285 | for N of 2, 3, 6 and 12 every calendar year has exactly 12/N due minutes, one in each selected month |
| Cadence.MonthGap | handlers/lxd_snap_schedule.go:251-285 | from one selected month's fire to the next one's it is at least those many days and at most 62, 92, 184 or 366, across year ends too |
| Cadence.MonthlyNextRun | handlers/lxd_snap_schedule.go:287-298 | the scan finds the next fire of a monthly policy if and only if it is less than 31 days away |
| Cadence.NoneShownAfterFire | handlers/lxd_snap_schedule.go:287-298 | so from a fire until 31 days before the next, which is at least 28 days, it shows none |
| Cadence.EveryMonthNeverFires | handlers/lxd_snap_schedule.go:259 | N = 1 is accepted and never due |
| Cadence.UnknownNeverFires | handlers/lxd_snap_schedule.go:226-228 | nor is a policy with a count below 1 or an unknown unit |
| Cadence.FiresAgain | handlers/lxd_backups.go:595-600 | an accepted policy is due again after every instant if and only if it is not "every 1 month" |
| Retention.Filter | handlers/lxd_snap_schedule.go:339-344 | exactly the listed snapshots that carry the prefix |
| Retention.MatchesAfterDash | handlers/lxd_snap_schedule.go:341-341 | a name matches exactly if it is the prefix or goes on after it with a dash |
| Retention.SortNewestFirst | handlers/lxd_snap_schedule.go:345 | the same snapshots, newest first |
| Retention.Instance.Prune | handlers/lxd_snap_schedule.go:332-357 | unless a deletion fails, what is left is every snapshot without the prefix and the newest min(n, keep) with it; a failed deletion leaves its snapshot and nothing else |
| Retention.Instance.Fire | handlers/lxd_snap_schedule.go:300-358 | a successful fire prunes what there was plus the new snapshot |
| Retention.OneMoreFire | handlers/lxd_snap_schedule.go:330-357 | pruning after one more snapshot keeps the newest of all there ever were |
| Retention.FireExtendsRun | handlers/lxd_snap_schedule.go:330-357 | any snapshots begin a run, and any such fire makes it longer |
| Retention.RunKeepsNewest | handlers/lxd_snap_schedule.go:330-357 | after any run of fires the prefix-matching snapshots are exactly the newest min(n, keep) of all ever made, none deleted is newer than one kept, and the others are untouched |
| LinkStore.Store.Append | handlers/interlink.go:190-199 | append writes in place while there is room, else into another backing array |
| LinkStore.Store.FindAccepted | handlers/interlink.go:259-271 | the first entry that names the caller's link, else the first with the caller's address, else none |
| LinkTable.NoneNamesNobody | handlers/interlink.go:259-264 | an identifier that is not set names nobody |
| LinkStore.Store.AcceptLink | handlers/interlink.go:158-199 | a known caller's entry takes the new secret and identifier, in place, and keeps address, certificate, trust and time; an unknown caller is appended with what it sent and without certificate and trust; the reply names the entry |
| LinkStore.Store.Unlink | handlers/interlink.go:957-971 | the table loses exactly the entries of the identifier, or none is found and nothing changes |
| LinkStore.Store.RemoteUnlink | handlers/interlink.go:1230-1256 | a request removes the entry it names exactly if it is signed with that entry's secret, and reports whether it did |
| LinkTable.RemoteUnlinkNeedsSecret | handlers/interlink.go:1230-1256 | the entries of the identifier go if one of them has the secret, and else nothing |
| LinkStore.Store.ById | handlers/interlink_health.go:223-230 | a pointer to the entry in the backing array of the moment |
| LinkStore.Store.FinishRepair | handlers/interlink_health.go:276-279 | the write through that pointer changes the entry if the table still has that backing array, and otherwise leaves the table as it is |
| LinkStore.Store.Dedupe | handlers/interlink.go:334-359 | the table becomes one entry for each key, with at least as much of certificate, remote identifier and trust as any other for it and linked no earlier than those with as much; the answer is true exactly if there was a duplicate, and otherwise nothing changes |
| LinkStore.Collapse | handlers/interlink.go:338-354 | the loop keeps, in order of first occurrence, for each key the earliest of the entries best by completeness and then age |
| LinkTable.CompletenessCounts | handlers/interlink.go:314-326 | a bare entry scores 0, certificate, remote identifier and trust add one each, and nothing else counts |
| LinkTable.EarliestBestIff | handlers/interlink.go:343-351 | the entry kept for a key is the one with the most of the three, of those the one linked last, and of those the first |
| LinkTable.LeftIsMaximal | handlers/interlink.go:343-351 | so every entry left is at least as complete as any other for its address, and no older than those as complete |
| LinkClash.LeavesMoreComplete | handlers/interlink.go:343-351 | of two entries for an address the more complete is left, in either order and for any times; else the one linked later; else the first |
| LinkTable.RenewedAndAccepted | handlers/interlink.go:158-199 | what renewal changes of an entry, and what a new entry holds |
| LinkTable.DedupedIsSettled | handlers/interlink.go:328-334 | that result is unique, has pairwise distinct keys and the same set of keys |
| LinkTable.NoDuplicateIsDeduped | handlers/interlink.go:334-359 | a table without duplicates is its own result, so deduplication is idempotent |
| LinkTable.KeysOf | handlers/interlink.go:338-354 | the keys in order of first occurrence are the keys of the table, each once, as many as entries exactly if there is no duplicate |
| LinkTable.DedupeRival | handlers/interlink.go:343-351 | one more entry with a known key replaces the kept one exactly if it is better |
| LinkTable.DedupeNewKey | handlers/interlink.go:352-353 | one more entry with a new key is kept at the end |
| LinkTable.WithoutMembers | handlers/interlink.go:958-966 | removal leaves exactly the entries of other identifiers |
| LinkNetwork.LinkStartIsPairStep | handlers/interlink.go:658-690 | starting a link disturbs neither another pair's entries nor its exchanges |
| LinkNetwork.RepairStartIsPairStep | handlers/interlink_health.go:238-262 | nor does starting a repair |
| LinkNetwork.AcceptIsPairStep | handlers/interlink.go:143-205 | nor does accepting; afterwards the peer holds the new secret under the identifier in the reply |
| LinkNetwork.LoseIsPairStep | handlers/interlink.go:691-698 | nor does a lost request, a lost reply or a refusal, wherever it leaves the two tables |
| LinkNetwork.LinkEndIsPairStep | handlers/interlink.go:700-714 | nor does the end of a link |
| LinkNetwork.RepairEndIsPairStep | handlers/interlink_health.go:276-283 | nor does the end of a repair, whether or not its write reaches the table |
| LinkNetwork.UnlinkIsPairStep | handlers/interlink.go:957-988 | nor does an unlink |
| LinkNetwork.RemoteUnlinkIsPairStep | handlers/interlink.go:1230-1256 | nor does the peer's half of it, which reports whether it removed an entry |
| LinkNetwork.DedupeKeepsInv | handlers/interlink.go:334-359 | deduplication keeps every table and every exchange well formed, at any time |
| LinkNetwork.PairStepKeepsInv | handlers/interlink.go:143-205 | a step of one pair keeps all tables and exchanges well formed |
| LinkSteps.LinkStartIff | handlers/interlink.go:658-690 | a link can be started if and only if no entry has this very address |
| LinkSteps.RepairStartExists | handlers/interlink_health.go:238-262 | a repair can be started for every entry |
| LinkSteps.AcceptExists | handlers/interlink.go:143-205 | every request can be accepted |
| LinkSteps.LinkEndExists | handlers/interlink.go:700-714 | a link that has its reply can be completed, with any certificate |
| LinkSteps.RepairEndExists | handlers/interlink_health.go:276-283 | so can a repair |
| LinkSteps.UnlinkExists | handlers/interlink.go:957-988 | every entry can be unlinked |
| LinkSteps.RemoteUnlinkExists | handlers/interlink.go:1230-1256 | and the peer can serve the request |
| LinkSteps.LoseExists | handlers/interlink.go:691-698 | any message can be lost |
| LinkSteps.DedupeExists | handlers/interlink.go:478-478 | any server can deduplicate at any time |
| LinkSteps.DedupedExists | handlers/interlink.go:334-359 | every table has a result of deduplication |
| LinkRuns.RunKeepsInv | handlers/interlink.go:952-993 | from any well-formed tables, however half-updated, every interleaving of exchanges keeps them well formed |
| LinkRuns.LinkMirrors | handlers/interlink.go:700-714 | a link exchange that completes leaves the two entries with the same secret, each naming the other, if and only if the peer still has its entry |
| LinkRuns.RepairMirrors | handlers/interlink_health.go:276-283 | a repair that completes does so if and only if moreover the table still has the backing array the entry was looked up in |
| LinkDrops.DropsIff | handlers/interlink.go:334-359 | a deduplication drops exactly the entries that are not the earliest of the best with their address |
| LinkDrops.StepCarries | handlers/interlink.go:143-205 | a step that leaves an exchange in flight keeps the entry it counts on at the peer unless a deduplication drops it, or serves the request |
| LinkDrops.LinkOverRunMirrorsIff | handlers/interlink.go:658-714 | over any run, a completed link leaves the pair mirrored if and only if no deduplication at the peer dropped the entry named in the reply |
| LinkDrops.UnlinkOverRunRemovesBoth | handlers/interlink.go:952-993 | over any run, once the peer has served the unlink of a mirrored pair neither table has its entry, and a removal is reported if and only if no deduplication had dropped the entry before |
| LinkDrops.ReportedUnlinkRemovedBoth | handlers/interlink.go:1230-1256 | over any run, an unlink that reports a removal, of a mirrored pair or not, has left neither entry |
| LinkRepair.MovedIff | handlers/interlink.go:957-971 | the steps that move a table to another backing array are exactly appends to a full slice, unlinks on either side and removals of duplicates |
| LinkRepair.RepairOverRunMirrorsIff | handlers/interlink_health.go:238-283 | over any run, a completed repair leaves the pair mirrored if and only if no such step came between lookup and write and no deduplication at the peer dropped the entry named in the reply |
| LinkMissedRepair.RepairMisses | handlers/interlink_health.go:238-283 | a run from a mirrored pair in which another link is removed meanwhile, the repair completes and the pair is mirrored no more |
| LinkMissedRepair.RepairIsDropped | handlers/interlink.go:361-376 | a run from a mirrored pair in which the peer, which has a second entry, deduplicates after its reply, the repair completes and the pair is mirrored no more |
| LinkRuns.RunKeepsTidy | handlers/interlink.go:952-993 | tables that start with one entry for each peer keep one through every interleaving, and an unlink that reports the removal leaves neither server any entry for the other |
| LinkClash.CrossedMatchIff | handlers/interlink.go:334-359 | after two crossed links the entries for each other that deduplication leaves match if and only if one server prefers its own and the other does not, for any times, certificates and trust and whatever else the tables hold |
| LinkClash.SimultaneousLinksCross | handlers/interlink.go:158-199 | two simultaneous links of servers that hold nothing for each other do cross, and their entries are the only ones for each other, whatever else the tables hold |
| LinkClash.LateAcceptMatchesIff | handlers/interlink.go:158-199 | if one server completes its own link before it accepts the other's, the entries left match if and only if the other prefers its own, whatever else the tables hold |
| LinkClash.SimultaneousLinksDisagree | handlers/interlink.go:334-359 | a case in which neither of the entries left names the other |
| LinkClash.RenewedSurvivesIff | handlers/interlink.go:343-351 | the entry an accepted request has renewed survives a deduplication if and only if it is the earliest of the best with its address |
| LinkClash.RenewedOfTwoSurvivesIff | handlers/interlink.go:343-351 | the first of two entries for a peer survives if and only if the other is not better, whatever else the table holds |
| LinkClash.DedupeMayDropRenewed | handlers/interlink.go:343-351 | a case in which deduplication drops it |
| RsyncWindow.ParseHHMMOfPrinted | handlers/extstorage.go:100-111 | every time of day written as HH:MM is read back |
| RsyncWindow.OnlyTimesParse | handlers/extstorage.go:100-111 | only two numbers about a colon, an hour and a minute, are read as a time of day |
| RsyncWindow.NoColonNoTime | handlers/extstorage.go:100-104 | a text without a colon is no time |
| RsyncWindow.BoundsOfTimes | handlers/extstorage.go:124-131 | a window begins at its start and ends at its end |
| RsyncWindow.SavedWindowIsInForce | handlers/extstorage.go:570-586 | a window is saved if and only if, trimmed, it is empty or valid, and a saved one is in force unless it is empty |
| RsyncWindow.InWindowIsCyclic | handlers/extstorage.go:124-141 | membership in a window is membership in an interval of the 24-hour circle, plain or wrapping; without a window, or in one that ends as it begins, the time is always right |
| RsyncWindow.NextStartOpens | handlers/extstorage.go:144-154 | from an instant outside the window the next start is later, at most 24 h away, in the window for a minute, with no instant in the window before it, and the same from every instant until then |
| RsyncScheduler.NoneRunsOutside | handlers/extstorage.go:897-913 | after step 1 of a tick no running sync is outside its window, and the others run on |
| RsyncDeferral.InStartList | handlers/extstorage.go:919-950 | the start list holds exactly the storages that resume or are due inside their window |
| RsyncDeferral.FireOutsideWindowIsDeferred | handlers/extstorage.go:936-948 | a tick defers the fire of an unpaused storage outside its window to the next opening, at most a day away, whatever its jobs are doing |
| RsyncDeferral.StepKeepsDeferral | handlers/extstorage.go:650-683 | no tick, start, end or request about another storage before the opening, and no report but that of a job that ended by itself, starts a deferred sync or changes its deferral; nor does a start of another storage clear it |
| RsyncDeferral.DeferralIsHonoured | handlers/extstorage.go:891-993 | over any run of such events; and the first tick at or after the opening puts it in the start list, inside the window if less than a minute late |
| RsyncDeferral.DeferralSurvivesIff | handlers/extstorage.go:660-680 | a deferral holds in every state of a run if and only if in it no job of the storage that ended by itself, done or failed, reports, and nobody clears the pause for a job started earlier |
| RsyncDeferral.NothingDrops | handlers/extstorage.go:660-680 | if no such job is left and no such start unfinished when the wait begins, nothing drops it |
| RsyncDeferral.FireIsLost | handlers/extstorage.go:936-948 | a world in which such a report drops a deferral and no tick starts the sync until it is due again |
| RsyncRequests.EditMovesWait | handlers/extstorage.go:587-591 | a sync that waits for its window and gets another one waits for the next opening of that, later than now and at most a day away, even if it is open now |
| RsyncRequests.EditDefersAnew | handlers/extstorage.go:587-591 | outside the new window it is deferred anew |
| RsyncRequests.EditEndsWait | handlers/extstorage.go:592-597 | without a window it waits no more, and only its schedule starts it |
| RsyncRequests.EditKeepsPause | handlers/extstorage.go:587-589 | any other pause stays as it is |
| RsyncRequests.RemovalForgets | handlers/extstorage.go:542-547 | a removed sync is not paused and no tick starts or defers it |
| RsyncRequests.ManualRun | handlers/extstorage.go:610-642 | a manual run starts one job and then clears the pause, or is refused and changes nothing; while the job runs another is refused |
| RsyncRequests.RunOutsideWindowIsPaused | handlers/extstorage.go:628-683 | outside the window it goes on until the next tick there; its report makes the sync wait for the next opening if the run has cleared the old pause by then, and a later clearing drops that wait |
| RsyncRecords.LastWordStands | handlers/extstorage.go:650-683 | after any run, status and error of a storage are those of the last report, failed start, deferral, or end of a pause by an edit that concerned it |
| RsyncRecords.SaidIsRecorded | handlers/extstorage.go:650-683 | every such event is recorded, and no other changes the record |
| RsyncRecords.ReportedFields | handlers/extstorage.go:660-680 | status, error, pause, reason and end of the pause after the report of each outcome |
| RsyncRecords.StartsBySchedule | handlers/extstorage.go:926-950 | a sync that is not paused is started exactly if it is enabled, scheduled, due and inside its window, and deferred, with these fields, if outside |
| RsyncRecords.StartsFromPause | handlers/extstorage.go:921-928 | a paused one exactly if its time has come or it is due inside its window, and no tick changes it |
| RsyncRecords.NothingStartsUnconfigured | handlers/extstorage.go:917-920 | without a configuration no tick starts or defers a sync |
| RsyncRecords.StartLaunches | handlers/extstorage.go:957-990 | a storage in the start list gets a job unless one of it is running or the start fails |
| RsyncRecords.RunLaunches | handlers/extstorage.go:610-634 | a manual run starts a job exactly if the sync is configured, mounted and not running |
| RsyncRecords.JobEndsAndReportsOnce | handlers/extstorage.go:648-683 | a job ends once and reports once |
| RsyncRecords.EnabledWhen | handlers/extstorage.go:891-993 | when each event can happen |
| RsyncService.Service.EnforceWindows | handlers/extstorage.go:897-913 | step 1 of a tick, job by job, as specified |
| RsyncService.Service.CollectStarts | handlers/extstorage.go:915-954 | step 2 of a tick, storage by storage, as specified: deferrals and the start list in order |
| RsyncService.Service.StartNext | handlers/extstorage.go:957-976 | step 3 of a tick for one storage up to the start of its job: skipped while a sync runs, else started, or failed, which clears the pause |
| RsyncService.Service.ClearPause | handlers/extstorage.go:981-989 | the second critical section of a start clears whatever pause there is by then |
| RsyncService.Service.Report | handlers/extstorage.go:650-683 | the end of a job is recorded as specified for its outcome; over the fields: done gives "ok", failed its error, either without pause; canceled leaves the pause; a pause gives its reason and its end; other storages stay |
| RsyncService.Service.RunNow | handlers/extstorage.go:610-634 | a manual run is refused while one runs, else starts a job |
| RsyncService.Service.SetRsync | handlers/extstorage.go:537-599 | a new configuration recomputes or drops a deferral; removal drops every pause |
| ConfigFiles.MergeWithItself | handlers/backup.go:840-861 | merging a configuration with itself changes nothing |
| ConfigFiles.TargetIsInside | handlers/backup.go:820-823 | whatever a backup calls its files, a write stays below the settings directory; proper names stay as they are |
| ConfigNames.DotsAreCleaned | handlers/backup.go:820-820 | empty and "." components are dropped and ".." takes back the component before it |
| ConfigNames.OutsideIsRefused | handlers/backup.go:821-823 | a name that leads out of the directory is refused |
| ConfigNames.ExportTakes | handlers/backup.go:136-173 | an export takes a file exactly if it is none of the named caches, sessions and logs, temporary or firewall files, in no hidden or excluded directory, and not of a kind that was not asked for |
| ConfigNames.SdnStaysOut | handlers/backup.go:805-813 | of the firewall's files only its configuration is imported, and it can change three files |
| ConfigNames.WrittenAsSent | handlers/backup.go:819-833 | any other file is written as in the backup, its temporary file is gone, and no other file changes |
| ConfigNames.KeysComeFirst | handlers/backup.go:796-798 | no .key file comes after another file |
| ConfigNames.CopyHoldsAll | handlers/backup.go:863-885 | a copy holds every file that is in no directory with the name of a copy |
| ConfigNames.RollbackRestores | handlers/backup.go:917-967 | which files a rollback puts back, which it removes and which it leaves |
| ConfigFiles.LessAtDifference | handlers/backup.go:893-893 | of two names that differ the one with the greater character at the first difference is greater, so of two times the later |
| ConfigFiles.ShorterIsLess | handlers/backup.go:893-893 | and of a name and a longer one that begins with it the longer |
| ConfigDir.MergeLocalConfig | handlers/backup.go:840-861 | key by key: a machine-local key is present exactly if this machine has it, with its value, and any other exactly if the backup has it, with the backup's; active_cert_name is machine-local exactly without certificates; unreadable text is refused; a null text crashes if a key is to be kept |
| ConfigDir.ConfigDir.Collect | handlers/backup.go:136-173 | the backup holds exactly the exported files, with their contents |
| ConfigDir.ConfigDir.CopyDir | handlers/backup.go:863-885 | the copy holds exactly the files outside older copies, and nothing else changes |
| ConfigDir.ConfigDir.SdnImportToDraft | handlers/backup.go:981-1003 | an imported firewall configuration becomes a draft, and with the firewall off the confirmed one with a mark besides; nothing else changes |
| ConfigDir.ConfigDir.WriteOne | handlers/backup.go:799-833 | one file of the backup is written, merged or handed to the firewall store; a failure touches at most its temporary file |
| ConfigDir.ConfigDir.WriteConfigFiles | handlers/backup.go:789-836 | the import writes each file at most once, no ordinary file while a key file is pending, and every file if it succeeds |
| ConfigDir.ConfigDir.RestoreSnapshot | handlers/backup.go:917-967 | the files of the copy are back except the live ones, and settings and firewall files it does not have are gone |
| ConfigDir.ConfigDir.LatestCopy | handlers/backup.go:888-900 | the choice of rollback: the directory with the greatest name of a copy, or none |
| ConfigTravel.ImportCarries | handlers/backup.go:789-836 | every complete import, in every order, delivers every file of the backup, config.json merged with the one there was before |
| ConfigTravel.ImportCarriesConfig | handlers/backup.go:840-861 | after every complete import the twelve machine-local keys of config.json are what they were here and all others what they are in the backup |
| ConfigTravel.ImportCarriesIff | handlers/backup.go:827-833 | it does so in every order if and only if no ordinary file of the backup has beside it one with its temporary name |
| ConfigTravel.OthersStay | handlers/backup.go:789-836 | files the backup does not name stay, unless they have the temporary name of one that is written |
| ConfigTravel.TmpGone | handlers/backup.go:827-833 | a complete import leaves no temporary file behind, unless the backup itself holds one of that name |
| ConfigTravel.TmpExported | handlers/backup.go:155-164 | a leftover temporary file is exported together with the file it belongs to |
| ConfigTravel.OwnExportIsIdentity | handlers/backup.go:136-173 | a server that imports its own fresh export keeps every file outside the firewall store as it is, in every order, unless a leftover temporary file lies beside an ordinary one |
| ConfigTravel.OwnExportIsIdentityIff | handlers/backup.go:789-836 | it does so in every order if and only if there is no such temporary file |
| ConfigRollback.RollbackUndoes | handlers/backup.go:917-967 | after a copy, any change, and the restoration of that copy: where the change left the copy of a file alone, an old file has its old content except the live ones, a setting that was not there is gone, and everything else is as the change left it |
| ConfigRollback.ImportUntouched | handlers/backup.go:789-836 | an import, complete, stopped, or broken off in the middle of a file, leaves alone every file that none of the names it may get to leads to |
| ConfigRollback.UndoableUndoes | handlers/backup.go:888-967 | after such an import rollback goes back to the copy that was the latest before it and undoes it, if that copy can restore everything and no name spoils it or makes a later one |
| ConfigRollback.FreshIsLatest | handlers/backup.go:888-900 | where no older copy has a later name, the latest is the one just made, and only the names matter |
| ConfigRollback.ExportHitsNothing | handlers/backup.go:146-164 | no name of an export hits a copy or makes one |
| ConfigRollback.BackupOverwritesCopy | handlers/backup.go:820-833 | a name that leads to a file of the copy makes rollback install the content of the backup there |
| ConfigOverwrite.HitFails | handlers/backup.go:820-833 | for every name that hits the latest copy there is an import of files with the given names that rollback does not undo |
| ConfigOverwrite.SupersedeFails | handlers/backup.go:888-900 | and so for every name that makes a later copy |
| ConfigOverwrite.LaterNameFails | handlers/backup.go:820-833 | a name such as `.pre-import-9/users.json`, which hits nothing, is one |
| ConfigOverwrite.RollbackUndoesIff | handlers/backup.go:863-967 | rollback undoes every import of files with the given names, whatever they hold, in any order and wherever it stops, if and only if no name the import may get to makes a copy later than the latest or hits that, and it holds what was there of every file that rollback would restore or remove or such a name leads to; names the import refuses are allowed for |
| ConfigOverwrite.RollbackOfFreshUndoesIff | handlers/backup.go:863-967 | where no older copy has a later name than the one just made: if and only if no name the import may get to makes a later copy or hits this one |
| ConfigRollback.ImportAndRollBack | handlers/backup.go:563-577 | the program's own sequence of copy, import and rollback to the latest copy gives back every old file except the live ones and removes every setting that was not there, whether the import ended or broke off, if the latest copy can restore everything and no name spoils it or makes a later one |
| EdgeLog.StrictlyAlternates | handlers/interlink_watcher.go:89-113 | notices about one subject alternate: between two raises there is a lowering or it was forgotten, between two lowerings a raise |
| EdgeLog.FirstIsRaise | handlers/interlink_watcher.go:89-113 | the first notice about a subject is a raise |
| PeerWatch.Watch.Forget | handlers/interlink_watcher.go:52-61 | exactly the servers no longer linked lose their record, without a notice |
| PeerWatch.Watch.See | handlers/interlink_watcher.go:77-113 | an answer sends a notice exactly if it differs from the stored mark, which then matches it; other servers are untouched |
| PeerWatch.Watch.Check | handlers/interlink_watcher.go:47-115 | after a check, whatever the order of the answers, only linked servers have a record, marked with what was seen; each was the subject of at most one notice, and all notices so far alternate and match the marks |
| HealthAlerts.NotifiesOnce | handlers/alerts.go:415-437 | a look sends a notice if and only if it is a poll, the health is one of the five bad ones, and no earlier poll found the same health with the pool neither well nor polled with another health since |
| HealthAlerts.SentExactly | handlers/alerts.go:415-437 | the notices of a poll are those of exactly the looks that notify, each once |
| HealthAlerts.HealthWatch.LogHealth | handlers/alerts.go:288-321 | a problem is logged exactly for a bad health that differs from the last seen, a recovery exactly after a bad one; the stored maps are what the history of looks says |
| HealthAlerts.HealthWatch.PollHealth | handlers/alerts.go:412-438 | a poll sends exactly the notices the history calls for |
| HealthAlerts.HealthWatch.PollDataErrors | handlers/alerts.go:515-556 | data-error notices of each pool alternate, starting with detected, match the stored flags, and are sent only while subscribed |
| HealthAlerts.HealthWatch.SeeDataErrors | handlers/alerts.go:518-554 | a pool's notice is sent exactly when its flag changes |
| MapPaths.UnderIsComponentPrefix | handlers/map.go:966-967 | a path is under a mountpoint exactly if the mountpoint's components are the path's first ones |
| MapPaths.ResolveByPath | handlers/map.go:959-974 | the identifier at the deepest mountpoint that contains the path, or none, in whatever order the map is visited |
| MapPaths.ResolutionIsUnique | handlers/map.go:959-974 | with distinct mountpoints there is only one such answer |
| MapPaths.LongestMountFor | handlers/map.go:901-913 | the deepest mountpoint that contains the path, trimmed |
| MapPaths.BackingIDs | handlers/map.go:891-898 | the union alone if one of its mountpoints is at least as deep as every dataset's that contains the path, else the resolved dataset alone, if any |
| MapTopology.AppendUnique | handlers/map.go:851-858 | the value is in the list afterwards, once, and nothing else changes |
| MapTopology.OneLinkForEachSession | handlers/map.go:823-842 | every session is exactly one of a lateral link of the guest with its address and a link of a remote box |
| MapBuilder.Builder.AddDataset | handlers/map.go:321-356 | one more dataset, found by its name and, if it has one, by its mountpoint |
| MapBuilder.Builder.AddUnion | handlers/map.go:366-398 | a union names exactly the datasets that back its branches, each once |
| MapBuilder.Builder.AddShare | handlers/map.go:429-458 | a share names what serves its path |
| MapBuilder.Builder.AddISCSI | handlers/map.go:460-479 | a target names the zvol, and each initiator has a box linked to it, once |
| MapBuilder.Builder.AddBucket | handlers/map.go:481-495 | a bucket names the dataset of the object store, found by name, else by path, or none |
| MapMeaning.NameBeforePath | handlers/map.go:380-387 | a branch, and the bucket store, is backed by the dataset of its name, and by its path only if there is none |
| MapBuilder.Builder.FindCustomVol | handlers/map.go:872-882 | some volume with the name, if there is one |
| MapBuilder.Builder.DiskDataset | handlers/map.go:519-549 | what backs a disk: a bind mount by its path, the root disk by the name of its volume, another volume by its own, anything else by nothing |
| MapBuilder.CustomVolNames | handlers/map.go:872-882 | the names of a custom volume, with any project |
| MapBuilder.OnlyCustomVols | handlers/map.go:872-882 | and no others |
| MapBuilder.Builder.AddInstance | handlers/map.go:510-564 | an instance names exactly what backs its disks, each dataset once, or if that is nothing the root dataset of its pool |
| MapBuilder.Builder.AddRemote | handlers/map.go:408-420 | one box for a key and one link for a consumer, whatever was there before |
| MapBuilder.Builder.GuestsByIP | handlers/map.go:824-830 | the last guest with an address |
| MapBuilder.Builder.FoldShareClients | handlers/map.go:823-842 | the links after dispatching are exactly those before and one for each session, without duplicates |
| MapBuilder.Builder.Prune | handlers/map.go:578-601 | on a virtualization host exactly the referenced datasets are left, and every identifier named is still in the document |
| MapBuilder.KeptIntegrity | handlers/map.go:578-601 | keeping exactly the referenced datasets keeps the integrity of the document |
| MapDocument.Assemble | handlers/map.go:321-566 | before sessions are dispatched the document has exactly the host's datasets and unions, and one consumer for each share, target, bucket and guest, in order, backed by what serves it |
| MapDocument.Build | handlers/map.go:321-601 | the whole document: those unions and consumers, the datasets or on virtualization hosts exactly those that are named, and exactly the links of the targets' initiators and of the sessions; everything named is in it, and every session is linked exactly once |
| MapMeaning.SessionIsLinked | handlers/map.go:823-842 | every session of every share is a link of a guest with its address, or else of the remote box for its address, and never both |
| MapMeaning.EverySession | handlers/map.go:425-458 | every session of a share is dispatched with its share, address and name |
| MapMeaning.OnlySessions | handlers/map.go:425-458 | and nothing else is |
| MapMeaning.DatasetsInOrder | handlers/map.go:325-355 | the datasets are the filesystems and zvols in order, named after them |
| MapMeaning.DatasetsByMount | handlers/map.go:325-340 | a mountpoint leads to the last dataset that has it |
| MapMeaning.OnlyMountpoints | handlers/map.go:338-340 | unset, none and legacy mountpoints lead nowhere |
| MapMeaning.DatasetsByName | handlers/map.go:337-355 | every filesystem and zvol is found by its name, and nothing else |
| MapMeaning.UnionsByMount | handlers/map.go:394-397 | a mountpoint leads to the last union that has it |
| MapMeaning.OnlyUnions | handlers/map.go:394-397 | and to none if no union has it |
| MapMeaning.NoRootDisk | handlers/map.go:529-533 | without a root disk on a pool nothing stands in |
| MapMeaning.PoolStandsIn | handlers/map.go:551-556 | a guest none of whose disks is backed is drawn on the root dataset of the pool of its last root disk, if there is one |
| MapMeaning.GuestOnItsDisks | handlers/map.go:540-549 | a guest one of whose disks is backed is drawn on what backs its disks and on nothing else |
| UpgradeMeta.RoundTripIff | handlers/appliance_upgrade.go:245-272 | reading back a printed record returns it if and only if the version is not empty and version, mode and disk are trimmed single lines, for all 64-bit totals and baselines |
| UpgradeMeta.FieldIsLine | handlers/appliance_upgrade.go:257-265 | what is read for a text field is always a trimmed single line |
| UpgradeMeta.EmptyVersionShifts | handlers/appliance_upgrade.go:253-266 | an empty version makes the total be read as the version |
| UpgradeMeta.MissingIsEmpty | handlers/appliance_upgrade.go:257-265 | a missing file is read as an empty record, and missing lines as empty or zero |
| Text.FormatIntRoundTrip | handlers/appliance_upgrade.go:254-267 | a printed 64-bit integer is read back, negative ones included |
| Text.ParseIntOf | handlers/appliance_upgrade.go:266-269 | digits with an optional sign are a number, clamped and an error if out of range, and every other text is an error |
| Text.OneMoreDigit | handlers/appliance_upgrade.go:266-269 | a number is the value of its decimal digits |

## Left out

- VGA console: dialling, proxying and the browser side; a control connection that loses the race is closed by its own handler and never pooled, so it is not a session here.
- Cadence: daylight-saving jumps, offsets of partial minutes and instants before the epoch; `now.Second() < 60` is always true and has no counterpart.
- Retention: the conversion of creation times; two snapshots with one creation time are kept or deleted in any order.
- InterLink: HMAC, certificates, passwords and status caches; propagation to the peers of a peer; the pinning of a caller's certificate after it was accepted; peers of an older version, which keep their old secret or do not say whether they removed a link.
- LinkStore.Store.Append: the growth factor of a full slice is not Go's; only that it moves to another backing array matters.
- Scheduler: the schedule itself (an arbitrary input), mounting, logs and byte counts, and the edit of a storage's other fields, which drops its pause.
- RsyncService.Service.RunNow: finding the storage and starting the job are one step.
- RsyncService.Service.StartNext: the look for a running sync and the start of the job are one step.
- Settings: file modes, symbolic links and empty directories; the archive format, Linux accounts, shares and instances that an import also restores.
- ConfigDir.ConfigDir.SdnImportToDraft: does not say what the firewall store writes into the draft and the confirmed configuration, nor what a failed write of the store leaves in its own temporary files.
- ConfigDir.ConfigDir.RestoreSnapshot: does not say what becomes of a path for which a backup has put a file in a copy inside the copy, since that depends on the order of the walk.
- ConfigOverwrite.RollbackUndoesIff: for the same reason leaves out names that lead into a copy inside one of its own name, for which ConfigRollback.UndoableUndoes still gives one half.
- Alerts: disk members, SMART, wearout, logins, scrubs and updates, which repeat the same edges; a poll whose disk listing fails skips the data errors.
- Storage map: pools, disks, rates, titles, the networking layer and the links of linked servers; a remote box keeps the first title it was given.
- Upgrade: writing the image, and the check that no write runs while an upgrade job starts.
- The full backup send and receive chain, the firewall's confirm and revert, HTTP, sessions and pages.
