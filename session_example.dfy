/**
 * A whole play session driven through the coordinator's event handlers:
 * start with 1000 gp of coins, get a 50-kill Gargoyles task, kill two
 * Gargoyles in combat ten minutes apart with auto-tracking on, gain 500 gp,
 * lose 300 gp, clean up on tick 100 and ask for the time estimate. A second
 * session keeps the task name tracked, so the estimate finds no ledger.
 */
module SessionExample {
  import opened Options
  import opened TimeUnits
  import opened KillLedger
  import opened SlayerTask
  import opened Tracker

  /** Coins (item 995) are worth 1 gp each. */
  const CoinPrice: int -> int := (id: int) => 1

  /** The ledgers after the two kills. */
  const Killed: map<string, Ledger> := KillRecorded(KillRecorded(map[], "Gargoyle", 0), "Gargoyle", 600)

  /** The ledgers after the 500 gp gain and the 300 gp loss. */
  const Credited: map<string, Ledger> :=
    GoldAttributed(GoldAttributed(Killed, Some("Gargoyle"), true, 500), Some("Gargoyle"), true, -300)

  /**
   * The session's ledgers: one Gargoyle ledger with both kills, 12 kills
   * per hour and the 500 gp of the gain (not the loss); a cleanup twenty
   * minutes in with a 24-hour retention keeps it as it is.
   */
  lemma SessionLedgers()
    ensures Credited.Keys == {"Gargoyle"}
    ensures Credited["Gargoyle"].totalKills == 2
    ensures Credited["Gargoyle"].KillsPerHour() == 12.0
    ensures Credited["Gargoyle"].totalGpGained == 500
    ensures Sweep(Credited, 1200 - 24 * SecondsPerHour) == Credited
  {
    var kills := EmptyLedger.AddKill(0).AddKill(600);
    TwoKillsTenMinutesApart(0);
    EmptyLedgerValid();
    AddKillValid(EmptyLedger, 0);
    AddKillValid(EmptyLedger.AddKill(0), 600);
    var l := kills.AddGpGain(500);
    assert l.KillsPerHour() == kills.KillsPerHour();
    assert kills.buckets == map[0 := 1, 600 := 1];
    PruneKeepingEveryBucket(l, 1200 - 24 * SecondsPerHour);
    assert Killed == map["Gargoyle" := kills];
    assert Credited == map["Gargoyle" := l];
  }

  /** The hours a positive rate needs for a count: the count divided by the rate. */
  lemma HoursAtRate(hours: real, rate: real, count: real)
    requires rate > 0.0 && hours * rate == count
    ensures hours == count / rate
  {
  }

  /** A new coordinator, started with 1000 gp of coins, that is given a 50-kill Gargoyles task. */
  method StartSession() returns (plugin: NpcKphTrackerPlugin)
    ensures fresh(plugin) && plugin.Valid()
    ensures plugin.npcTrackingMap == map[] && plugin.Ledgers() == map[]
    ensures plugin.currentSlayerTask != null && fresh(plugin.currentSlayerTask)
    ensures plugin.currentSlayerTask.taskName == "Gargoyles" && plugin.currentSlayerTask.remaining == 50
    ensures plugin.trackingInventoryValue && plugin.previousInventoryValue == 1000
  {
    plugin := new NpcKphTrackerPlugin();
    plugin.StartUp(true, Some([Item(995, 1000)]), CoinPrice);
    plugin.UpdateSlayerTask(50, 30, false);
  }

  /** Two Gargoyles die in combat ten minutes apart: both count toward the task and are recorded. */
  method KillTwoGargoyles(plugin: NpcKphTrackerPlugin)
    requires plugin.Valid() && plugin.Ledgers() == map[]
    requires plugin.currentSlayerTask != null
    requires plugin.currentSlayerTask.taskName == "Gargoyles" && plugin.currentSlayerTask.remaining == 50
    modifies plugin, plugin.npcTrackingMap.Values, plugin.currentSlayerTask
    ensures plugin.Valid() && plugin.Ledgers() == Killed
    ensures fresh(plugin.npcTrackingMap.Values - old(plugin.npcTrackingMap.Values))
    ensures plugin.currentSlayerTask == old(plugin.currentSlayerTask) && plugin.currentSlayerTask.remaining == 48
    ensures plugin.currentTrackedNpc == Some("Gargoyle") && plugin.isTracking
    ensures plugin.trackingInventoryValue == old(plugin.trackingInventoryValue)
    ensures plugin.previousInventoryValue == old(plugin.previousInventoryValue)
  {
    PluralTaskMatchesSingular("Gargoyle");
    assert "Gargoyle" + "s" == "Gargoyles";
    plugin.OnActorDeath(NpcActor(Some("Gargoyle")), true, 0, true);
    plugin.OnActorDeath(NpcActor(Some("Gargoyle")), true, 600, true);
  }

  /** The inventory rises to 1500 gp and then falls to 1200 gp while the Gargoyle is tracked. */
  method GainThenLoseGold(plugin: NpcKphTrackerPlugin)
    requires plugin.Valid() && plugin.Ledgers() == Killed
    requires plugin.currentTrackedNpc == Some("Gargoyle") && plugin.isTracking
    requires plugin.trackingInventoryValue && plugin.previousInventoryValue == 1000
    modifies plugin, plugin.npcTrackingMap.Values
    ensures plugin.Valid() && plugin.Ledgers() == Credited
    ensures plugin.npcTrackingMap == old(plugin.npcTrackingMap)
    ensures plugin.currentSlayerTask == old(plugin.currentSlayerTask)
    ensures plugin.currentTrackedNpc == Some("Gargoyle") && plugin.isTracking
    ensures plugin.previousInventoryValue == 1200
  {
    assert [Item(995, 1500)][..0] == [];
    plugin.OnItemContainerChanged(true, true, Some([Item(995, 1500)]), CoinPrice);
    assert [Item(995, 1200)][..0] == [];
    plugin.OnItemContainerChanged(true, true, Some([Item(995, 1200)]), CoinPrice);
  }

  /** The cleanup on tick 100 keeps the ledger, and 48 kills at 12 per hour take 4 hours. */
  method CleanUpAndEstimate(plugin: NpcKphTrackerPlugin) returns (estimate: Option<real>)
    requires plugin.Valid() && plugin.Ledgers() == Credited
    requires plugin.currentTrackedNpc == Some("Gargoyle") && plugin.isTracking
    requires plugin.currentSlayerTask != null && plugin.currentSlayerTask.remaining == 48
    modifies plugin, plugin.npcTrackingMap.Values
    ensures plugin.Ledgers() == Credited
    ensures fresh(plugin.npcTrackingMap.Values - old(plugin.npcTrackingMap.Values))
    ensures plugin.currentSlayerTask == old(plugin.currentSlayerTask)
    ensures estimate == Some(4.0)
  {
    SessionLedgers();
    plugin.CleanupOldData(100, 1200, 24);
    ghost var rate := EstimateRate(plugin.Ledgers()["Gargoyle"], false, 15, 1200);
    assert rate == 12.0;
    estimate := plugin.GetEstimatedTimeRemaining(false, 15, 1200);
    HoursAtRate(estimate.value, rate, 48.0);
  }

  /**
   * The whole session: 48 kills remain, the Gargoyle ledger holds both
   * kills and the 500 gp gained, and the estimate is 4 hours.
   */
  method GargoyleSession() returns (estimate: Option<real>, remaining: int, kills: int, gold: int)
    ensures estimate == Some(4.0)
    ensures remaining == 48 && kills == 2 && gold == 500
  {
    var plugin := StartSession();
    KillTwoGargoyles(plugin);
    GainThenLoseGold(plugin);
    estimate := CleanUpAndEstimate(plugin);
    remaining := plugin.currentSlayerTask.remaining;
    SessionLedgers();
    var data := plugin.npcTrackingMap["Gargoyle"];
    assert data.View() == Credited["Gargoyle"];
    kills := data.totalKills;
    gold := data.totalGpGained;
  }


  /** A new coordinator given a 50-kill Gargoyles task with auto-tracking of new tasks on. */
  method TrackTaskName() returns (plugin: NpcKphTrackerPlugin)
    ensures fresh(plugin) && plugin.Valid()
    ensures plugin.npcTrackingMap == map[] && plugin.Ledgers() == map[]
    ensures plugin.currentSlayerTask != null && fresh(plugin.currentSlayerTask)
    ensures plugin.currentTrackedNpc == Some("Gargoyles") && plugin.isTracking
  {
    plugin := new NpcKphTrackerPlugin();
    plugin.UpdateSlayerTask(50, 30, true);
  }

  /** Two Gargoyles die in combat with auto-tracking of killed NPCs off: the task name stays tracked. */
  method KillWithoutAutoTrack(plugin: NpcKphTrackerPlugin)
    requires plugin.Valid() && plugin.Ledgers() == map[]
    requires plugin.currentSlayerTask != null
    requires plugin.currentTrackedNpc == Some("Gargoyles") && plugin.isTracking
    modifies plugin, plugin.npcTrackingMap.Values, plugin.currentSlayerTask
    ensures plugin.Valid() && plugin.Ledgers() == Killed
    ensures plugin.currentSlayerTask == old(plugin.currentSlayerTask)
    ensures plugin.currentTrackedNpc == Some("Gargoyles") && plugin.isTracking
  {
    plugin.OnActorDeath(NpcActor(Some("Gargoyle")), true, 0, false);
    plugin.OnActorDeath(NpcActor(Some("Gargoyle")), true, 600, false);
  }

  /**
   * With auto-tracking of new tasks on and of killed NPCs off, the task name
   * "Gargoyles" stays tracked while the kills are filed under "Gargoyle", so
   * the estimate finds no ledger for the tracked name.
   */
  method TaskNameTrackedFindsNoLedger() returns (estimate: Option<real>)
    ensures estimate == None
  {
    var plugin := TrackTaskName();
    KillWithoutAutoTrack(plugin);
    assert "Gargoyles" !in Killed;
    estimate := plugin.GetEstimatedTimeRemaining(false, 15, 1200);
  }
}
