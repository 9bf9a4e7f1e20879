# NPC KPH Tracker — a Dafny model

The NPC KPH Tracker is a RuneLite plugin. It counts the player's kills per
NPC name and derives kills per hour (KPH) and gold per hour from them. It
also follows the current slayer task and estimates the time the task still
needs. This project models the plugin's core: the class
`NpcKphTrackerPlugin` and its two record classes, `NpcTrackingData` and
`SlayerTaskData`. The model states and proves what each operation does.

Modules:

- `TimeUnits`: instants in whole seconds. Covers `Instant.truncatedTo(MINUTES)`,
  `ChronoUnit.MINUTES.between` (truncating toward zero), and the
  configuration ranges.
- `Buckets`: sums and least/greatest keys of a kill-bucket map (minute start
  → kills). These are the stream reductions that `recalculateTotals` and
  `getRecentKillsPerHour` perform.
- `KillLedger`: the per-NPC record.
  - `Ledger` is the value of a record's fields. Its member functions
    describe `addKill`, `addGpGain`, `removeOldKills` + `recalculateTotals`
    and the rate getters.
  - The class `NpcTrackingData` holds the fields and updates them in place.
    Each of its methods is proved to take `View()` to the value the matching
    `Ledger` function gives.
  - The ledger invariant is `Ledger.Valid`: the total is the bucket sum,
    buckets are minute starts with positive counts, first/last kill lie
    in the least/greatest bucket, and the gold total is never negative.
    Lemmas prove that every operation keeps it.
- `SlayerTask`: the creature-id → task-name table, the case-insensitive
  matching of an NPC name against the task (aliases included), and the class
  `SlayerTaskData`.
- `Tracker`: the coordinator class `NpcKphTrackerPlugin` with the event
  handlers and panel actions.
  - `Ledgers()` is the map from NPC name to ledger value.
  - Each handler's effect on it is stated as a function on ledger maps:
    `KillRecorded`, `GoldAttributed`, `Sweep`.
  - Lemmas prove that those functions keep every ledger valid, and that the
    sweep keeps exactly the ledgers with a recent bucket.

- `SessionExample`: two play sessions driven through the coordinator's
  handlers. The first runs from start-up to the time estimate. In the
  second the task name stays tracked, so the estimate finds no ledger.

Things the source does that the model makes explicit (each is proved):

- KPH is 0 whenever the first and last kill are less than one whole minute
  apart, not only when they are equal (`KillLedger.KillsPerHourOfValid`).
- After a sweep, `firstKill`/`lastKill` are minute starts (bucket keys) and
  no longer raw timestamps. A sweep that removes nothing can still change
  KPH (`KillLedger.SweepRealignsBounds`).
- The empty NPC name is contained in every task name, so it matches every
  task (`SlayerTask.EmptyNameMatchesEveryTask`).
- Auto-tracking a new slayer task tracks the task's name (for instance
  "Gargoyles"). Kills are filed under the NPC's own name (for instance
  "Gargoyle"). While the task name stays tracked (auto-tracking of killed
  NPCs off), the estimate finds no ledger
  (`SessionExample.TaskNameTrackedFindsNoLedger`). With auto-tracking of
  killed NPCs on, the first kill tracks the NPC's own name and the estimate
  uses its ledger (`SessionExample.GargoyleSession`).

Other observations about the source:

- `onVarbitChanged` (npc_kph_tracker_plugin.java:120) has no `@Subscribe`
  annotation, so nothing in the plugin calls `updateSlayerTask`. The model
  keeps `UpdateSlayerTask` as an operation that a caller may invoke.

## Model

| member | source | states |
|---|---|---|
| TimeUnits.TruncateToMinute | src/main/java/com/npckphtracker/npc_kph_tracker_plugin.java:515 | truncation to minutes gives the minute start at or before the instant, less than a minute earlier |
| TimeUnits.TruncateMonotone | src/main/java/com/npckphtracker/npc_kph_tracker_plugin.java:515 | truncation to minutes preserves the order of instants |
| TimeUnits.TruncateAligned | src/main/java/com/npckphtracker/npc_kph_tracker_plugin.java:515 | truncating a minute start leaves it unchanged |
| TimeUnits.MinutesBetween | src/main/java/com/npckphtracker/npc_kph_tracker_plugin.java:563 | whole minutes between two instants, rounded toward zero, for both orders |
| Buckets.SumOver | src/main/java/com/npckphtracker/npc_kph_tracker_plugin.java:542 | the stream sum of the counts of the given keys; with no negative count it is non-negative |
| Buckets.SumOverSplit | src/main/java/com/npckphtracker/npc_kph_tracker_plugin.java:542 | the stream sum of bucket counts may take any key out first |
| Buckets.SumOverAgree | src/main/java/com/npckphtracker/npc_kph_tracker_plugin.java:542 | a bucket sum depends only on the counts of the keys summed |
| Buckets.SumOverPositive | src/main/java/com/npckphtracker/npc_kph_tracker_plugin.java:542 | positive counts give a non-negative sum that is 0 exactly when no key is summed |
| Buckets.Total | src/main/java/com/npckphtracker/npc_kph_tracker_plugin.java:542 | the sum over all buckets, which recalculateTotals stores as the kill count; never negative when no count is |
| Buckets.TotalIncrement | src/main/java/com/npckphtracker/npc_kph_tracker_plugin.java:515-516 | merging 1 into a bucket raises the bucket total by exactly one |
| Buckets.MinExists | src/main/java/com/npckphtracker/npc_kph_tracker_plugin.java:551 | a non-empty key set has a least key, so the stream's min is present |
| Buckets.MaxExists | src/main/java/com/npckphtracker/npc_kph_tracker_plugin.java:552 | a non-empty key set has a greatest key, so the stream's max is present |
| Buckets.SetMin | src/main/java/com/npckphtracker/npc_kph_tracker_plugin.java:551 | the min is a key and no key is smaller |
| Buckets.SetMax | src/main/java/com/npckphtracker/npc_kph_tracker_plugin.java:552 | the max is a key and no key is larger |
| KillLedger.Ledger.AddKill | src/main/java/com/npckphtracker/npc_kph_tracker_plugin.java:513-527 | one more kill in the timestamp's minute bucket, other buckets kept, total +1, gold kept, first/last widened to the raw timestamp |
| KillLedger.Ledger.AddGpGain | src/main/java/com/npckphtracker/npc_kph_tracker_plugin.java:529-532 | the gold total moves by the amount; buckets, kill count and first/last are untouched; a valid ledger stays valid under a non-negative amount |
| KillLedger.Ledger.RemoveOldKills | src/main/java/com/npckphtracker/npc_kph_tracker_plugin.java:534-554 | exactly the buckets at or after the cutoff stay with their counts; the total is their sum; first/last are the least/greatest remaining key or absent when none remain; gold is kept |
| KillLedger.Ledger.KillsPerHour | src/main/java/com/npckphtracker/npc_kph_tracker_plugin.java:556-570 | 0 with no kills, no bounds or a zero-minute span; otherwise rate × span minutes = 60 × kills |
| KillLedger.Ledger.GpPerHour | src/main/java/com/npckphtracker/npc_kph_tracker_plugin.java:588-602 | 0 with no gold, no bounds or a zero-minute span; otherwise rate × span minutes = 60 × gold |
| KillLedger.Ledger.AverageGpPerKill | src/main/java/com/npckphtracker/npc_kph_tracker_plugin.java:604-612 | 0 with no kills; otherwise average × kills = gold |
| KillLedger.Ledger.RecentKillsPerHour | src/main/java/com/npckphtracker/npc_kph_tracker_plugin.java:572-586 | rate × window minutes = 60 × the kills in buckets strictly after now minus the window |
| KillLedger.EmptyLedgerValid | src/main/java/com/npckphtracker/npc_kph_tracker_plugin.java:507-511 | a new record satisfies the ledger invariant |
| KillLedger.AddKillValid | src/main/java/com/npckphtracker/npc_kph_tracker_plugin.java:513-527 | addKill keeps the ledger invariant (total = bucket sum, bounds inside the extreme buckets) |
| KillLedger.AddKillsCount | src/main/java/com/npckphtracker/npc_kph_tracker_plugin.java:513-527 | any sequence of addKill calls keeps the invariant and raises the total by the number of calls |
| KillLedger.NoKillsIffNoBuckets | src/main/java/com/npckphtracker/npc_kph_tracker_plugin.java:540-554 | in a valid record the kill count is non-negative and is 0 exactly when there are no buckets |
| KillLedger.RemoveOldKillsValid | src/main/java/com/npckphtracker/npc_kph_tracker_plugin.java:534-554 | removeOldKills keeps the ledger invariant |
| KillLedger.RemoveOldKillsIdempotent | src/main/java/com/npckphtracker/npc_kph_tracker_plugin.java:534-554 | pruning twice at the same cutoff equals pruning once |
| KillLedger.KillsPerHourOfValid | src/main/java/com/npckphtracker/npc_kph_tracker_plugin.java:556-570 | on a valid record KPH is non-negative, and positive iff there is a kill and first and last are at least 60 seconds apart |
| KillLedger.GpRateIsKillRateTimesAverage | src/main/java/com/npckphtracker/npc_kph_tracker_plugin.java:556-612 | with kills, gold per hour = KPH × average gold per kill |
| KillLedger.RecentRateOfValid | src/main/java/com/npckphtracker/npc_kph_tracker_plugin.java:572-586 | on a valid ledger the recent rate over a positive window is never negative |
| KillLedger.GoldRatesOfValid | src/main/java/com/npckphtracker/npc_kph_tracker_plugin.java:588-612 | on a valid record gold per hour and average gold per kill are non-negative |
| KillLedger.TwoKillsTenMinutesApart | src/main/java/com/npckphtracker/npc_kph_tracker_plugin.java:556-570 | two kills ten minutes apart give 12 KPH from any start |
| KillLedger.RecentRateIgnoresOlderBuckets | src/main/java/com/npckphtracker/npc_kph_tracker_plugin.java:572-586 | the recent rate depends only on the buckets after the window start |
| KillLedger.RecentWindowExample | src/main/java/com/npckphtracker/npc_kph_tracker_plugin.java:572-586 | with a 15-minute window, only the 3 kills inside it count: 12 per hour |
| KillLedger.PruneKeepingEveryBucket | src/main/java/com/npckphtracker/npc_kph_tracker_plugin.java:534-554 | pruning a valid record whose buckets are all at or after the cutoff and whose bounds are minute starts leaves it unchanged |
| KillLedger.SweepRealignsBounds | src/main/java/com/npckphtracker/npc_kph_tracker_plugin.java:534-570 | a prune that removes no bucket moves the bounds to minute starts and changes KPH from 120 to 60 |
| KillLedger.NpcTrackingData.constructor | src/main/java/com/npckphtracker/npc_kph_tracker_plugin.java:505-511 | a new record is the empty ledger |
| KillLedger.NpcTrackingData.AddKill | src/main/java/com/npckphtracker/npc_kph_tracker_plugin.java:513-527 | the record's new fields are the addKill ledger of its old fields |
| KillLedger.NpcTrackingData.AddGpGain | src/main/java/com/npckphtracker/npc_kph_tracker_plugin.java:529-532 | only the gold total grows, by the amount |
| KillLedger.NpcTrackingData.RemoveOldKills | src/main/java/com/npckphtracker/npc_kph_tracker_plugin.java:534-538 | the record's new fields are the pruned ledger of its old fields |
| KillLedger.NpcTrackingData.RecalculateTotals | src/main/java/com/npckphtracker/npc_kph_tracker_plugin.java:540-554 | buckets and gold kept; total = bucket sum; first/last = least/greatest key, or absent when there are no buckets |
| KillLedger.NpcTrackingData.GetRecentKillsPerHour | src/main/java/com/npckphtracker/npc_kph_tracker_plugin.java:572-586 | the loop's result is the recent rate of the record's ledger |
| KillLedger.NpcTrackingData.Reset | src/main/java/com/npckphtracker/npc_kph_tracker_plugin.java:634-641 | the record becomes the empty ledger |
| SlayerTask.SlayerTaskName | src/main/java/com/npckphtracker/npc_kph_tracker_plugin.java:217-264 | ids 1..38 get their own non-empty table name; every other id gets "Unknown Task"; never empty |
| SlayerTask.ToLower | src/main/java/com/npckphtracker/npc_kph_tracker_plugin.java:273-274 | same length; every upper-case ASCII letter becomes its lower-case letter; every other character is kept |
| SlayerTask.ToLowerIdempotent | src/main/java/com/npckphtracker/npc_kph_tracker_plugin.java:273-277 | lower-casing twice equals lower-casing once |
| SlayerTask.Contains | src/main/java/com/npckphtracker/npc_kph_tracker_plugin.java:277-278 | String.contains: the needle occurs at some position; the empty string and the haystack itself are contained, and nothing longer than the haystack is |
| SlayerTask.ContainsAnyAlias | src/main/java/com/npckphtracker/npc_kph_tracker_plugin.java:301-308 | the alias loop returns true iff some alias occurs in the NPC name |
| SlayerTask.IsAlternativeTaskName | src/main/java/com/npckphtracker/npc_kph_tracker_plugin.java:282-311 | true iff the lower-cased task has aliases and the NPC name contains one of them |
| SlayerTask.MatchesTask | src/main/java/com/npckphtracker/npc_kph_tracker_plugin.java:273-279 | the three-way test for a present task and name: after lower-casing, a containment in either direction always matches, although the task name is lower-cased twice |
| SlayerTask.MatchesTaskIgnoresCase | src/main/java/com/npckphtracker/npc_kph_tracker_plugin.java:266-280 | matching gives the same answer after lower-casing either input |
| SlayerTask.SameNameMatches | src/main/java/com/npckphtracker/npc_kph_tracker_plugin.java:266-280 | an NPC named like the task up to case matches it |
| SlayerTask.EmptyNameMatchesEveryTask | src/main/java/com/npckphtracker/npc_kph_tracker_plugin.java:277-278 | the empty NPC name matches every task |
| SlayerTask.MutatedBloodveldAlias | src/main/java/com/npckphtracker/npc_kph_tracker_plugin.java:283-310 | "Mutated Bloodveld" matches the Bloodvelds task through the alias table |
| SlayerTask.GrotesqueGuardiansAlias | src/main/java/com/npckphtracker/npc_kph_tracker_plugin.java:283-310 | "Grotesque Guardians" matches the Gargoyles task through the alias table |
| SlayerTask.PluralTaskMatchesSingular | src/main/java/com/npckphtracker/npc_kph_tracker_plugin.java:266-280 | an NPC name matches the task named by its plural with an s (Gargoyle and Gargoyles) |
| SlayerTask.DecrementedRemaining | src/main/java/com/npckphtracker/npc_kph_tracker_plugin.java:480-486 | the remaining count never grows, falls by at most one, stays put exactly when it is not positive, and stays non-negative from a non-negative count |
| SlayerTask.RemainingFloorsAtZero | src/main/java/com/npckphtracker/npc_kph_tracker_plugin.java:480-486 | after n matching kills a non-negative remaining count is max(remaining − n, 0) |
| SlayerTask.SlayerTaskData.constructor | src/main/java/com/npckphtracker/npc_kph_tracker_plugin.java:453-458 | name, size and remaining count are the arguments |
| SlayerTask.SlayerTaskData.SetRemaining | src/main/java/com/npckphtracker/npc_kph_tracker_plugin.java:475-478 | the remaining count becomes the argument, unguarded |
| SlayerTask.SlayerTaskData.DecrementRemaining | src/main/java/com/npckphtracker/npc_kph_tracker_plugin.java:480-486 | one less while positive, otherwise unchanged; never goes below 0 from a non-negative count |
| SlayerTask.SlayerTaskData.Completed | src/main/java/com/npckphtracker/npc_kph_tracker_plugin.java:488-491 | completed + remaining = assigned size |
| SlayerTask.SlayerTaskData.ProgressPercentage | src/main/java/com/npckphtracker/npc_kph_tracker_plugin.java:493-500 | 0 for size 0; otherwise percent × size = 100 × completed; in [0, 100] while remaining is within the size; 0 before any kill, 100 when nothing remains |
| SlayerTask.GargoylesExample | src/main/java/com/npckphtracker/npc_kph_tracker_plugin.java:480-500 | a 50-kill task after 30 kills: 30 completed, 60 percent |
| Tracker.InventoryValue | src/main/java/com/npckphtracker/npc_kph_tracker_plugin.java:108-116 | the sum of price × quantity over the slots with id > 0, summed front to back; never negative at non-negative prices and quantities |
| Tracker.InventoryValueAppend | src/main/java/com/npckphtracker/npc_kph_tracker_plugin.java:108-116 | the worth of two slot lists side by side is the sum of their worths |
| Tracker.EmptySlotsWorthNothing | src/main/java/com/npckphtracker/npc_kph_tracker_plugin.java:110-115 | slots with id ≤ 0 are worth 0 at any prices |
| Tracker.CalculateInventoryValue | src/main/java/com/npckphtracker/npc_kph_tracker_plugin.java:95-119 | 0 without a player or an inventory; otherwise the sum of price × quantity over the non-empty slots |
| Tracker.KillRecorded | src/main/java/com/npckphtracker/npc_kph_tracker_plugin.java:166-172 | the name's ledger (the filed one, or the empty one when missing) becomes its addKill ledger; the names grow by that name; other ledgers are kept |
| Tracker.Filed | src/main/java/com/npckphtracker/npc_kph_tracker_plugin.java:170 | computeIfAbsent: the name is filed; a filed name leaves the map as it is; a missing one gets the empty ledger |
| Tracker.FiledValid | src/main/java/com/npckphtracker/npc_kph_tracker_plugin.java:170 | computeIfAbsent keeps every ledger valid |
| Tracker.KillRecordedOnFiled | src/main/java/com/npckphtracker/npc_kph_tracker_plugin.java:170-171 | filing the empty ledger first (computeIfAbsent) does not change the result of adding the kill |
| Tracker.KillRecordedValid | src/main/java/com/npckphtracker/npc_kph_tracker_plugin.java:166-172 | recording a kill keeps every ledger valid |
| Tracker.GoldAttributed | src/main/java/com/npckphtracker/npc_kph_tracker_plugin.java:78-89 | a positive gain while tracking goes in full to the tracked NPC's ledger; nothing else changes; a gain ≤ 0 changes nothing |
| Tracker.GoldAttributedValid | src/main/java/com/npckphtracker/npc_kph_tracker_plugin.java:82-89 | crediting gold keeps every ledger valid |
| Tracker.ResetTrackedValid | src/main/java/com/npckphtracker/npc_kph_tracker_plugin.java:346-356 | emptying one ledger keeps every ledger valid |
| Tracker.Sweep | src/main/java/com/npckphtracker/npc_kph_tracker_plugin.java:340-343 | the survivors are the pruned ledgers with kills; every dropped ledger prunes to 0 kills |
| Tracker.PrunedOnStep | src/main/java/com/npckphtracker/npc_kph_tracker_plugin.java:342 | pruning one more ledger extends the pruned set by its name |
| Tracker.WithKills | src/main/java/com/npckphtracker/npc_kph_tracker_plugin.java:343 | removeIf keeps exactly the ledgers whose kill count is not 0 |
| Tracker.SweepOfPruned | src/main/java/com/npckphtracker/npc_kph_tracker_plugin.java:342-343 | pruning every ledger and then removing those with 0 kills is the sweep |
| Tracker.SweepValid | src/main/java/com/npckphtracker/npc_kph_tracker_plugin.java:340-343 | the sweep keeps every ledger valid |
| Tracker.SweepKeepsExactlyRecentLedgers | src/main/java/com/npckphtracker/npc_kph_tracker_plugin.java:340-343 | a ledger survives iff it had a bucket at or after the cutoff |
| Tracker.SweepIdempotent | src/main/java/com/npckphtracker/npc_kph_tracker_plugin.java:340-343 | sweeping twice at the same cutoff equals sweeping once |
| Tracker.ResetLedgerIsSwept | src/main/java/com/npckphtracker/npc_kph_tracker_plugin.java:343-356 | a ledger emptied by resetTracking is removed by the next sweep |
| Tracker.NpcKphTrackerPlugin.constructor | src/main/java/com/npckphtracker/npc_kph_tracker_plugin.java:47-52 | no ledgers, nothing tracked, no task, previous worth 0, gold tracking off |
| Tracker.NpcKphTrackerPlugin.StartUp | src/main/java/com/npckphtracker/npc_kph_tracker_plugin.java:58-63 | with a local player, the inventory worth is sampled and gold tracking starts; otherwise nothing changes |
| Tracker.NpcKphTrackerPlugin.OnItemContainerChanged | src/main/java/com/npckphtracker/npc_kph_tracker_plugin.java:73-93 | for the inventory with gold tracking on, the ledgers get the gold step for the gain over the previous worth, and the new worth is kept; otherwise nothing changes |
| Tracker.NpcKphTrackerPlugin.TakeSample | src/main/java/com/npckphtracker/npc_kph_tracker_plugin.java:78-91 | the gain over the previous worth is credited, then the sample becomes the previous worth |
| Tracker.NpcKphTrackerPlugin.CreditGold | src/main/java/com/npckphtracker/npc_kph_tracker_plugin.java:82-89 | the ledgers become the gold step for the gain |
| Tracker.NpcKphTrackerPlugin.IsSlayerTaskNpc | src/main/java/com/npckphtracker/npc_kph_tracker_plugin.java:266-280 | false without task or name; otherwise, lower-cased, the NPC name contains the task, the task contains the NPC name, or the NPC name contains an alias |
| Tracker.NpcKphTrackerPlugin.OnActorDeath | src/main/java/com/npckphtracker/npc_kph_tracker_plugin.java:131-157 | for a named NPC, a matching kill decrements the task regardless of combat; a kill in combat is recorded (and auto-tracked); anything else changes nothing; every record that was not filed before is new |
| Tracker.NpcKphTrackerPlugin.CountTaskKill | src/main/java/com/npckphtracker/npc_kph_tracker_plugin.java:145-149 | with a task, the death of a matching NPC decrements the remaining count (floored at 0); otherwise it is kept |
| Tracker.NpcKphTrackerPlugin.LedgerFor | src/main/java/com/npckphtracker/npc_kph_tracker_plugin.java:170 | the record filed under the name: the existing one, or a fresh empty one that is filed; no other record appears |
| Tracker.NpcKphTrackerPlugin.AddKillTo | src/main/java/com/npckphtracker/npc_kph_tracker_plugin.java:171 | adding a kill to the filed record changes the ledgers as recording a kill does |
| Tracker.NpcKphTrackerPlugin.RecordKill | src/main/java/com/npckphtracker/npc_kph_tracker_plugin.java:170-171 | the ledgers change as recording a kill does; the name is filed; every record that was not filed before is new; the other fields are kept |
| Tracker.NpcKphTrackerPlugin.TrackNpcKill | src/main/java/com/npckphtracker/npc_kph_tracker_plugin.java:166-179 | the ledgers change as recording a kill does; every record that was not filed before is new; with auto-tracking the NPC becomes tracked, otherwise tracking is kept |
| Tracker.NpcKphTrackerPlugin.UpdateSlayerTask | src/main/java/com/npckphtracker/npc_kph_tracker_plugin.java:181-215 | a size or id ≤ 0 clears the task; a new name installs a fresh full task (and auto-tracks the task name); the same name only overwrites the remaining count |
| Tracker.NpcKphTrackerPlugin.CleanupOldData | src/main/java/com/npckphtracker/npc_kph_tracker_plugin.java:333-344 | on every hundredth tick the ledgers become the sweep at now − retention hours; on other ticks nothing changes; no record is added |
| Tracker.NpcKphTrackerPlugin.SweepLedgers | src/main/java/com/npckphtracker/npc_kph_tracker_plugin.java:342-343 | the ledgers become the sweep at the cutoff; no record is added; the other fields are kept |
| Tracker.NpcKphTrackerPlugin.PruneAll | src/main/java/com/npckphtracker/npc_kph_tracker_plugin.java:342 | every record is pruned at the cutoff |
| Tracker.NpcKphTrackerPlugin.DropEmpty | src/main/java/com/npckphtracker/npc_kph_tracker_plugin.java:343 | the ledgers become exactly those with kills; no record is added |
| Tracker.NpcKphTrackerPlugin.ResetTracking | src/main/java/com/npckphtracker/npc_kph_tracker_plugin.java:346-356 | the tracked NPC's ledger, when present, becomes empty and stays filed; the rest is unchanged |
| Tracker.NpcKphTrackerPlugin.ResetAllTracking | src/main/java/com/npckphtracker/npc_kph_tracker_plugin.java:358-363 | no ledgers, nothing tracked; task and gold sampling kept |
| Tracker.NpcKphTrackerPlugin.SetTrackedNpc | src/main/java/com/npckphtracker/npc_kph_tracker_plugin.java:365-369 | the tracked name is the argument, and tracking is on iff there is one |
| Tracker.NpcKphTrackerPlugin.IsTracking | src/main/java/com/npckphtracker/npc_kph_tracker_plugin.java:376-379 | true only with a tracked name |
| Tracker.IsTrackingIsFlag | src/main/java/com/npckphtracker/npc_kph_tracker_plugin.java:376-379 | under the coordinator invariant, isTracking() equals the flag |
| Tracker.EstimateRate | src/main/java/com/npckphtracker/npc_kph_tracker_plugin.java:404-406 | the rate the estimate divides by: recent or overall per the configuration; never negative on a valid ledger with a positive window |
| Tracker.NpcKphTrackerPlugin.GetEstimatedTimeRemaining | src/main/java/com/npckphtracker/npc_kph_tracker_plugin.java:391-414 | present iff there is a task, tracking, a ledger for the tracked name and a positive rate (recent or overall, per config); then hours × rate = remaining, and hours ≥ 0 |
| SessionExample.SessionLedgers | src/main/java/com/npckphtracker/npc_kph_tracker_plugin.java:82-89 | after two Gargoyle kills ten minutes apart, a 500 gp gain and a 300 gp loss, the one ledger holds 2 kills at 12 per hour and 500 gp; a 24-hour sweep keeps it |
| SessionExample.StartSession | src/main/java/com/npckphtracker/npc_kph_tracker_plugin.java:55-215 | startUp (lines 55-63) with 1000 gp of coins samples 1000 and starts gold tracking; updateSlayerTask (lines 181-215) installs a 50-kill Gargoyles task |
| SessionExample.KillTwoGargoyles | src/main/java/com/npckphtracker/npc_kph_tracker_plugin.java:131-179 | two Gargoyle deaths in combat count toward the Gargoyles task (48 left), are filed under "Gargoyle" and auto-track it |
| SessionExample.GainThenLoseGold | src/main/java/com/npckphtracker/npc_kph_tracker_plugin.java:73-93 | a rise to 1500 gp credits 500 to the tracked ledger; the fall to 1200 gp credits nothing; 1200 is the new previous worth |
| SessionExample.CleanUpAndEstimate | src/main/java/com/npckphtracker/npc_kph_tracker_plugin.java:333-344 | the tick-100 cleanup keeps the ledger, and 48 remaining kills at 12 per hour give an estimate of 4 hours |
| SessionExample.GargoyleSession | src/main/java/com/npckphtracker/npc_kph_tracker_plugin.java:391-414 | the whole session ends with 48 kills left, 2 kills and 500 gp in the ledger and a 4-hour estimate |
| SessionExample.TrackTaskName | src/main/java/com/npckphtracker/npc_kph_tracker_plugin.java:181-215 | a new 50-kill Gargoyles task with auto-tracking of new tasks on tracks the name "Gargoyles" |
| SessionExample.KillWithoutAutoTrack | src/main/java/com/npckphtracker/npc_kph_tracker_plugin.java:131-179 | two in-combat Gargoyle deaths without auto-tracking file the kills under "Gargoyle" and keep "Gargoyles" tracked |
| SessionExample.TaskNameTrackedFindsNoLedger | src/main/java/com/npckphtracker/npc_kph_tracker_plugin.java:391-402 | with the task name tracked and the kills filed under the NPC's name, the estimate is absent |

## Left out

- `startUp` and `shutDown`: overlay registration and removal are UI wiring. `StartUp` models only the inventory branch.
- `onGameTick`: it only calls `cleanupOldData`. `CleanupOldData` takes the tick count as a parameter.
- `onVarbitChanged`: it is event wiring with no `@Subscribe`. `UpdateSlayerTask` takes the two player variables as parameters.
- `wasPlayerInCombatWith`: it reads the client's interaction state, which lies outside the core. Its answer is the parameter `wasInCombat`.
- `ItemManager.getItemPrice`: a client service, so the price is a function parameter.
- `Instant.now()` is the parameter `now`. Instants are whole seconds, with no sub-second precision.
- The configuration values (auto-track toggles, retention hours, recent window, estimate mode) are parameters. Their ranges are preconditions (npc_kph_config.java, lines 66 and 97).
- `formatEstimatedTime` and `getAllTrackingData`: presentation and a read-only view. `GetEstimatedTimeRemaining` stops at the hours value.
- The getters (`getTaskName`, `getOriginalAmount`, `getRemaining`, `getKillCount`, `getTotalGpGained`, `getFirstKill`, `getLastKill`, `getCurrentTrackedNpc`, `getTrackingData`, `getCurrentSlayerTask`) are direct field reads in the model. `provideConfig` is dependency injection.
- Panels and overlay: UI, outside the core.
- Thread safety: the `ConcurrentHashMap` semantics and concurrent event delivery are not modelled. Every operation runs alone.
- Integer overflow: `int`/`long` wrap-around is not modelled (inventory worth, gold gain, kill counts). Integers are unbounded.
- `double` arithmetic is modelled with exact reals. Rounding is not modelled.
- `String.toLowerCase` is modelled for ASCII letters only. Locale and Unicode case mapping are left out.
- `KillLedger.Ledger.RecentKillsPerHour`: requires a non-zero window. Java would divide by zero for a window of 0, which the configured range 5..120 excludes.
- `KillLedger.NpcTrackingData.GetRecentKillsPerHour`: requires a non-zero window, for the same reason.
- `Tracker.NpcKphTrackerPlugin.GetEstimatedTimeRemaining`: requires the recent window to lie in the configured range 5..120.
- `Tracker.NpcKphTrackerPlugin.CleanupOldData`: requires the retention to lie in the configured range 1..168 hours.
- `Tracker.NpcKphTrackerPlugin.Valid`: per-ledger validity is not part of the coordinator invariant. It is proved on `Ledgers()` for each operation's effect (`KillRecordedValid`, `GoldAttributedValid`, `SweepValid`, `ResetTrackedValid`).
- `KillLedger.NpcTrackingData`: the ghost `npcName` is a proof device recording the name the record is filed under, not a Java field.
- Iteration order of the Java maps is not modelled. The sums and minima do not depend on it, and the loops pick keys in an arbitrary order.
