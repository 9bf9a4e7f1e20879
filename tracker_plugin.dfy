/**
 * The tracker's coordinator (NpcKphTrackerPlugin): the ledgers by NPC name,
 * the NPC currently tracked, the current slayer task and the last sampled
 * inventory worth, changed by the game's events.
 *
 * What the game client supplies is passed in: the kind of actor that died
 * and whether the player was fighting it, the inventory's items and an
 * item price function, the slayer-task variables, the tick count, the
 * current instant and the configuration values.
 */
module Tracker {
  import opened Options
  import opened TimeUnits
  import opened Buckets
  import opened KillLedger
  import opened SlayerTask

  /** One inventory slot; an id of 0 or less is an empty slot. */
  datatype Item = Item(id: int, quantity: int)

  /** The actor of an ActorDeath event: an NPC (whose name may be missing) or anything else. */
  datatype Actor = NpcActor(name: Option<string>) | OtherActor

  /** The worth of one slot: price times quantity for an item, 0 for an empty slot. */
  function SlotValue(item: Item, price: int -> int): int
  {
    if item.id > 0 then price(item.id) * item.quantity else 0
  }

  /** The worth of a list of slots, summed front to back: never negative at non-negative prices and quantities. */
  function InventoryValue(items: seq<Item>, price: int -> int): (r: int)
    ensures (forall i | 0 <= i < |items| :: items[i].quantity >= 0 && price(items[i].id) >= 0) ==> r >= 0
  {
    if items == [] then 0
    else InventoryValue(items[..|items| - 1], price) + SlotValue(items[|items| - 1], price)
  }

  /** The worth of two lists of slots side by side is the sum of their worths. */
  lemma {:induction false} InventoryValueAppend(a: seq<Item>, b: seq<Item>, price: int -> int)
    ensures InventoryValue(a + b, price) == InventoryValue(a, price) + InventoryValue(b, price)
    decreases |b|
  {
    if b != [] {
      var b' := b[..|b| - 1];
      assert (a + b)[..|a + b| - 1] == a + b';
      assert (a + b)[|a + b| - 1] == b[|b| - 1];
      InventoryValueAppend(a, b', price);
    } else {
      assert a + b == a;
    }
  }

  /** Empty slots are worth nothing, whatever the prices. */
  lemma {:induction false} EmptySlotsWorthNothing(items: seq<Item>, price: int -> int)
    requires forall i | 0 <= i < |items| :: items[i].id <= 0
    ensures InventoryValue(items, price) == 0
    decreases |items|
  {
    if items != [] {
      EmptySlotsWorthNothing(items[..|items| - 1], price);
    }
  }

  /**
   * calculateInventoryValue: 0 without a local player or an inventory,
   * otherwise the worth of the inventory's slots.
   */
  method CalculateInventoryValue(localPlayerPresent: bool, inventory: Option<seq<Item>>, price: int -> int)
    returns (totalValue: int)
    ensures !localPlayerPresent || inventory.None? ==> totalValue == 0
    ensures localPlayerPresent && inventory.Some? ==> totalValue == InventoryValue(inventory.value, price)
  {
    if !localPlayerPresent {
      return 0;
    }
    if inventory.None? {
      return 0;
    }
    var items := inventory.value;
    totalValue := 0;
    var i := 0;
    while i < |items|
      invariant 0 <= i <= |items|
      invariant totalValue == InventoryValue(items[..i], price)
    {
      assert items[..i + 1][..i] == items[..i];
      if items[i].id > 0 {
        var itemPrice := price(items[i].id);
        totalValue := totalValue + itemPrice * items[i].quantity;
      }
      i := i + 1;
    }
    assert items[..|items|] == items;
  }

  /** Every ledger of the map keeps the ledger invariant. */
  ghost predicate AllValid(ledgers: map<string, Ledger>)
  {
    forall n | n in ledgers :: ledgers[n].Valid()
  }

  /**
   * trackNpcKill on the ledgers: the ledger of the name, created empty when
   * missing, gets one kill; no other ledger changes.
   */
  function KillRecorded(ledgers: map<string, Ledger>, npcName: string, now: int): (r: map<string, Ledger>)
    ensures r.Keys == ledgers.Keys + {npcName}
    ensures r[npcName] == (if npcName in ledgers then ledgers[npcName] else EmptyLedger).AddKill(now)
    ensures forall n | n in ledgers && n != npcName :: r[n] == ledgers[n]
  {
    var data := if npcName in ledgers then ledgers[npcName] else EmptyLedger;
    ledgers[npcName := data.AddKill(now)]
  }

  /** Crediting gold keeps the ledger invariant. */
  lemma GoldAttributedValid(ledgers: map<string, Ledger>, tracked: Option<string>, tracking: bool, gpGain: int)
    requires AllValid(ledgers)
    ensures AllValid(GoldAttributed(ledgers, tracked, tracking, gpGain))
  {
  }

  /** Emptying one ledger, as resetTracking does, keeps the ledger invariant. */
  lemma ResetTrackedValid(ledgers: map<string, Ledger>, npcName: string)
    requires AllValid(ledgers)
    ensures AllValid(ledgers[npcName := EmptyLedger])
  {
    EmptyLedgerValid();
  }

  /**
   * computeIfAbsent on the ledgers: the name's ledger, created empty when
   * missing, is filed. A filed name leaves the map as it is; a missing one
   * gets the empty ledger.
   */
  function Filed(ledgers: map<string, Ledger>, npcName: string): (r: map<string, Ledger>)
    ensures r.Keys == ledgers.Keys + {npcName}
    ensures npcName in ledgers ==> r == ledgers
    ensures npcName !in ledgers ==> r[npcName] == EmptyLedger
  {
    ledgers[npcName := if npcName in ledgers then ledgers[npcName] else EmptyLedger]
  }

  /** computeIfAbsent keeps every ledger valid: a new ledger is the empty one. */
  lemma FiledValid(ledgers: map<string, Ledger>, npcName: string)
    requires AllValid(ledgers)
    ensures AllValid(Filed(ledgers, npcName))
  {
    EmptyLedgerValid();
  }

  /** Filing the name's ledger first does not change what recording a kill gives. */
  lemma KillRecordedOnFiled(ledgers: map<string, Ledger>, npcName: string, now: int)
    ensures KillRecorded(Filed(ledgers, npcName), npcName, now) == KillRecorded(ledgers, npcName, now)
  {
  }

  /** Recording a kill keeps the ledger invariant. */
  lemma KillRecordedValid(ledgers: map<string, Ledger>, npcName: string, now: int)
    requires AllValid(ledgers)
    ensures AllValid(KillRecorded(ledgers, npcName, now))
  {
    EmptyLedgerValid();
    AddKillValid(if npcName in ledgers then ledgers[npcName] else EmptyLedger, now);
  }

  /**
   * The gold step of onItemContainerChanged on the ledgers: a positive gain
   * while tracking goes, in full, to the tracked NPC's ledger when it has
   * one; no other ledger and no kill data change, and a gain of 0 or less
   * changes nothing.
   */
  function GoldAttributed(ledgers: map<string, Ledger>, tracked: Option<string>, tracking: bool, gpGain: int)
    : (r: map<string, Ledger>)
    ensures r.Keys == ledgers.Keys
    ensures forall n | n in ledgers :: r[n] == ledgers[n].(totalGpGained := r[n].totalGpGained)
    ensures forall n | n in ledgers ::
      r[n].totalGpGained == ledgers[n].totalGpGained + (if gpGain > 0 && tracking && tracked == Some(n) then gpGain else 0)
  {
    if gpGain > 0 && tracking && tracked.Some? && tracked.value in ledgers
    then ledgers[tracked.value := ledgers[tracked.value].AddGpGain(gpGain)]
    else ledgers
  }

  /**
   * The sweep of cleanupOldData on the ledgers: every ledger is pruned at
   * the cutoff, and the ones left with no kills are dropped.
   */
  ghost function Sweep(ledgers: map<string, Ledger>, cutoff: int): (r: map<string, Ledger>)
    ensures r.Keys <= ledgers.Keys
    ensures forall n | n in r :: r[n] == ledgers[n].RemoveOldKills(cutoff) && r[n].totalKills != 0
    ensures forall n | n in ledgers && n !in r :: ledgers[n].RemoveOldKills(cutoff).totalKills == 0
  {
    map n | n in ledgers && ledgers[n].RemoveOldKills(cutoff).totalKills != 0 :: ledgers[n].RemoveOldKills(cutoff)
  }

  /** The ledgers with the ones named in done pruned at the cutoff. */
  ghost function PrunedOn(ledgers: map<string, Ledger>, done: set<string>, cutoff: int): (r: map<string, Ledger>)
    ensures r.Keys == ledgers.Keys
  {
    map n | n in ledgers :: if n in done then ledgers[n].RemoveOldKills(cutoff) else ledgers[n]
  }

  /** Pruning one more ledger extends the set of pruned names by that name. */
  lemma PrunedOnStep(ledgers: map<string, Ledger>, done: set<string>, name: string, cutoff: int)
    requires name in ledgers && name !in done
    ensures PrunedOn(ledgers, done, cutoff)[name := ledgers[name].RemoveOldKills(cutoff)]
            == PrunedOn(ledgers, done + {name}, cutoff)
  {
  }

  /** The ledgers that hold at least one kill. */
  ghost function WithKills(ledgers: map<string, Ledger>): (r: map<string, Ledger>)
    ensures r.Keys <= ledgers.Keys
    ensures forall n | n in r :: r[n] == ledgers[n] && r[n].totalKills != 0
    ensures forall n | n in ledgers && n !in r :: ledgers[n].totalKills == 0
  {
    map n | n in ledgers && ledgers[n].totalKills != 0 :: ledgers[n]
  }

  /** Pruning every ledger and then dropping the ones with no kills is the sweep. */
  lemma SweepOfPruned(ledgers: map<string, Ledger>, cutoff: int)
    ensures WithKills(PrunedOn(ledgers, ledgers.Keys, cutoff)) == Sweep(ledgers, cutoff)
  {
  }

  /** The sweep keeps the ledger invariant. */
  lemma SweepValid(ledgers: map<string, Ledger>, cutoff: int)
    requires AllValid(ledgers)
    ensures AllValid(Sweep(ledgers, cutoff))
  {
    forall n | n in Sweep(ledgers, cutoff) ensures Sweep(ledgers, cutoff)[n].Valid() {
      RemoveOldKillsValid(ledgers[n], cutoff);
    }
  }

  /** A ledger survives the sweep exactly when it holds a bucket at or after the cutoff. */
  lemma SweepKeepsExactlyRecentLedgers(ledgers: map<string, Ledger>, cutoff: int, n: string)
    requires AllValid(ledgers)
    ensures n in Sweep(ledgers, cutoff) <==> n in ledgers && exists k | k in ledgers[n].buckets :: cutoff <= k
  {
    if n in ledgers {
      var pruned := ledgers[n].RemoveOldKills(cutoff);
      RemoveOldKillsValid(ledgers[n], cutoff);
      NoKillsIffNoBuckets(pruned);
      if exists k | k in ledgers[n].buckets :: cutoff <= k {
        var k :| k in ledgers[n].buckets && cutoff <= k;
        assert k in pruned.buckets.Keys;
      }
    }
  }

  /** Sweeping twice with the same cutoff is sweeping once. */
  lemma SweepIdempotent(ledgers: map<string, Ledger>, cutoff: int)
    ensures Sweep(Sweep(ledgers, cutoff), cutoff) == Sweep(ledgers, cutoff)
  {
    var once := Sweep(ledgers, cutoff);
    forall n | n in once ensures once[n].RemoveOldKills(cutoff) == once[n] {
      RemoveOldKillsIdempotent(ledgers[n], cutoff);
    }
  }

  /** A ledger emptied by resetTracking stays in the map until the next sweep, which drops it. */
  lemma ResetLedgerIsSwept(ledgers: map<string, Ledger>, npcName: string, cutoff: int)
    ensures npcName !in Sweep(ledgers[npcName := EmptyLedger], cutoff)
  {
    var pruned := EmptyLedger.RemoveOldKills(cutoff);
    assert pruned.buckets.Keys == {};
    assert pruned.buckets == map[];
  }

  /**
   * The rate the time estimate divides by: the recent rate or the overall
   * rate. On a valid ledger with a positive window it is never negative.
   */
  ghost function EstimateRate(l: Ledger, useRecentKph: bool, recentMinutes: int, now: int): (r: real)
    requires recentMinutes != 0
    ensures l.Valid() && recentMinutes > 0 ==> r >= 0.0
  {
    if l.Valid() && recentMinutes > 0 then
      KillsPerHourOfValid(l);
      RecentRateOfValid(l, now, recentMinutes);
      RateOf(l, useRecentKph, recentMinutes, now)
    else
      RateOf(l, useRecentKph, recentMinutes, now)
  }

  /** The configured choice between the recent and the overall rate. */
  ghost function RateOf(l: Ledger, useRecentKph: bool, recentMinutes: int, now: int): real
    requires recentMinutes != 0
  {
    if useRecentKph then l.RecentKillsPerHour(now, recentMinutes) else l.KillsPerHour()
  }

  /** The values of a map of records. */
  ghost function LedgersOf(records: map<string, NpcTrackingData>): map<string, Ledger>
    reads records.Values
  {
    map n | n in records :: records[n].View()
  }

  /** The coordinator's state, changed by the event handlers and the panel's controls. */
  class NpcKphTrackerPlugin {
    var npcTrackingMap: map<string, NpcTrackingData>
    var currentTrackedNpc: Option<string>
    var isTracking: bool
    var currentSlayerTask: SlayerTaskData?
    var previousInventoryValue: int
    var trackingInventoryValue: bool

    /**
     * The coordinator invariant: every record is filed under the name it was
     * created for (so no two names share a record), tracking implies a
     * tracked name, and the task's remaining count is never negative. That
     * every ledger keeps the ledger invariant is proved on Ledgers(),
     * operation by operation (KillRecordedValid, GoldAttributedValid,
     * SweepValid, ResetTrackedValid).
     */
    ghost predicate Valid()
      reads this, currentSlayerTask
    {
      && (forall n | n in npcTrackingMap :: npcTrackingMap[n].npcName == n)
      && (isTracking ==> currentTrackedNpc.Some?)
      && (currentSlayerTask != null ==> currentSlayerTask.remaining >= 0)
    }

    /** The ledgers' values, by NPC name. */
    ghost function Ledgers(): map<string, Ledger>
      reads this, npcTrackingMap.Values
    {
      LedgersOf(npcTrackingMap)
    }

    constructor ()
      ensures Valid() && npcTrackingMap == map[] && Ledgers() == map[]
      ensures currentTrackedNpc == None && !isTracking && currentSlayerTask == null
      ensures previousInventoryValue == 0 && !trackingInventoryValue
    {
      npcTrackingMap := map[];
      currentTrackedNpc := None;
      isTracking := false;
      currentSlayerTask := null;
      previousInventoryValue := 0;
      trackingInventoryValue := false;
    }

    /** The inventory part of startUp: with a local player, sample the inventory and start gold tracking. */
    method StartUp(localPlayerPresent: bool, inventory: Option<seq<Item>>, price: int -> int)
      requires Valid()
      modifies this
      ensures Valid()
      ensures npcTrackingMap == old(npcTrackingMap) && Ledgers() == old(Ledgers())
      ensures currentTrackedNpc == old(currentTrackedNpc) && isTracking == old(isTracking)
      ensures currentSlayerTask == old(currentSlayerTask)
      ensures localPlayerPresent ==>
        && trackingInventoryValue
        && previousInventoryValue == (if inventory.Some? then InventoryValue(inventory.value, price) else 0)
      ensures !localPlayerPresent ==>
        trackingInventoryValue == old(trackingInventoryValue) && previousInventoryValue == old(previousInventoryValue)
    {
      if localPlayerPresent {
        previousInventoryValue := CalculateInventoryValue(localPlayerPresent, inventory, price);
        trackingInventoryValue := true;
      }
    }

    /**
     * onItemContainerChanged: for the inventory, while gold tracking is on,
     * the new worth is sampled, a positive gain is credited to the tracked
     * NPC's ledger, and the sample becomes the previous worth.
     */
    method OnItemContainerChanged(isInventory: bool, localPlayerPresent: bool, inventory: Option<seq<Item>>, price: int -> int)
      requires Valid()
      modifies this, npcTrackingMap.Values
      ensures Valid()
      ensures npcTrackingMap == old(npcTrackingMap) && currentTrackedNpc == old(currentTrackedNpc)
      ensures isTracking == old(isTracking) && currentSlayerTask == old(currentSlayerTask)
      ensures trackingInventoryValue == old(trackingInventoryValue)
      ensures !(isInventory && trackingInventoryValue) ==>
        previousInventoryValue == old(previousInventoryValue) && Ledgers() == old(Ledgers())
      ensures isInventory && trackingInventoryValue ==>
        && previousInventoryValue == (if localPlayerPresent && inventory.Some? then InventoryValue(inventory.value, price) else 0)
        && Ledgers() == GoldAttributed(old(Ledgers()), currentTrackedNpc, isTracking, previousInventoryValue - old(previousInventoryValue))
    {
      if isInventory && trackingInventoryValue {
        var currentInventoryValue := CalculateInventoryValue(localPlayerPresent, inventory, price);
        TakeSample(currentInventoryValue);
      }
    }

    /** The sampling step of onItemContainerChanged: credit the gain over the previous worth, then keep the new worth. */
    method TakeSample(currentInventoryValue: int)
      requires Valid()
      modifies this, npcTrackingMap.Values
      ensures Valid()
      ensures npcTrackingMap == old(npcTrackingMap) && currentTrackedNpc == old(currentTrackedNpc)
      ensures isTracking == old(isTracking) && currentSlayerTask == old(currentSlayerTask)
      ensures trackingInventoryValue == old(trackingInventoryValue)
      ensures previousInventoryValue == currentInventoryValue
      ensures Ledgers() == GoldAttributed(old(Ledgers()), currentTrackedNpc, isTracking, currentInventoryValue - old(previousInventoryValue))
    {
      CreditGold(currentInventoryValue - previousInventoryValue);
      previousInventoryValue := currentInventoryValue;
    }

    /** The gold step of onItemContainerChanged: a positive gain while tracking goes to the tracked NPC's ledger. */
    method CreditGold(gpGain: int)
      requires Valid()
      modifies npcTrackingMap.Values
      ensures Ledgers() == GoldAttributed(old(Ledgers()), currentTrackedNpc, isTracking, gpGain)
    {
      if gpGain > 0 && isTracking && currentTrackedNpc.Some? {
        var name := currentTrackedNpc.value;
        if name in npcTrackingMap {
          var data := npcTrackingMap[name];
          data.AddGpGain(gpGain);
        }
      }
    }

    /**
     * isSlayerTaskNpc: false with no task or no name; otherwise, after
     * lower-casing, the NPC name contains the task name, the task name
     * contains the NPC name, or the NPC name contains one of the task's aliases.
     */
    function IsSlayerTaskNpc(npcName: Option<string>): (r: bool)
      reads this
      ensures currentSlayerTask == null || npcName.None? ==> !r
      ensures currentSlayerTask != null && npcName.Some? ==>
        var task, npc := ToLower(currentSlayerTask.taskName), ToLower(npcName.value);
        (r <==> Contains(npc, task) || Contains(task, npc)
                || (task in Alternatives && exists j | 0 <= j < |Alternatives[task]| :: Contains(npc, Alternatives[task][j])))
    {
      if currentSlayerTask == null || npcName.None? then false
      else
        ToLowerIdempotent(currentSlayerTask.taskName);
        MatchesTask(currentSlayerTask.taskName, npcName.value)
    }

    /**
     * onActorDeath: for an NPC with a name, a kill matching the task lowers
     * the task's remaining count whether or not the player fought it, and
     * the kill is recorded only when the player was in combat with it.
     */
    method OnActorDeath(actor: Actor, wasInCombat: bool, now: int, autoTrackLastKilled: bool)
      requires Valid()
      modifies this, npcTrackingMap.Values, currentSlayerTask
      ensures Valid()
      ensures fresh(npcTrackingMap.Values - old(npcTrackingMap.Values))
      ensures currentSlayerTask == old(currentSlayerTask)
      ensures previousInventoryValue == old(previousInventoryValue) && trackingInventoryValue == old(trackingInventoryValue)
      ensures currentSlayerTask != null ==>
        currentSlayerTask.remaining ==
          (if actor.NpcActor? && old(IsSlayerTaskNpc(actor.name))
           then DecrementedRemaining(old(currentSlayerTask.remaining))
           else old(currentSlayerTask.remaining))
      ensures Ledgers() ==
        if actor.NpcActor? && actor.name.Some? && wasInCombat
        then KillRecorded(old(Ledgers()), actor.name.value, now)
        else old(Ledgers())
      ensures currentTrackedNpc ==
        if actor.NpcActor? && actor.name.Some? && wasInCombat && autoTrackLastKilled
        then Some(actor.name.value) else old(currentTrackedNpc)
      ensures isTracking ==
        if actor.NpcActor? && actor.name.Some? && wasInCombat && autoTrackLastKilled
        then true else old(isTracking)
    {
      if actor.NpcActor? {
        if actor.name.None? {
          return;
        }
        CountTaskKill(actor.name);
        if wasInCombat {
          TrackNpcKill(actor.name.value, now, autoTrackLastKilled);
        }
      }
    }

    /** The slayer-task step of onActorDeath: a death of the task's creature counts toward the task. */
    method CountTaskKill(npcName: Option<string>)
      requires Valid()
      modifies currentSlayerTask
      ensures Valid()
      ensures currentSlayerTask != null ==>
        currentSlayerTask.remaining ==
          (if old(IsSlayerTaskNpc(npcName))
           then DecrementedRemaining(old(currentSlayerTask.remaining))
           else old(currentSlayerTask.remaining))
    {
      if currentSlayerTask != null && IsSlayerTaskNpc(npcName) {
        currentSlayerTask.DecrementRemaining();
      }
    }

    /**
     * The computeIfAbsent step of trackNpcKill: the record filed under the
     * name, created empty and filed when missing.
     */
    method LedgerFor(npcName: string) returns (data: NpcTrackingData)
      requires Valid()
      modifies this
      ensures Valid()
      ensures fresh(npcTrackingMap.Values - old(npcTrackingMap.Values))
      ensures npcTrackingMap == old(npcTrackingMap)[npcName := data]
      ensures data.npcName == npcName
      ensures npcName in old(npcTrackingMap) ==> data == old(npcTrackingMap)[npcName]
      ensures npcName !in old(npcTrackingMap) ==> fresh(data)
      ensures Ledgers() == Filed(old(Ledgers()), npcName)
      ensures currentTrackedNpc == old(currentTrackedNpc) && isTracking == old(isTracking)
      ensures currentSlayerTask == old(currentSlayerTask)
      ensures previousInventoryValue == old(previousInventoryValue) && trackingInventoryValue == old(trackingInventoryValue)
    {
      if npcName in npcTrackingMap {
        data := npcTrackingMap[npcName];
      } else {
        data := new NpcTrackingData(npcName);
        npcTrackingMap := npcTrackingMap[npcName := data];
        assert Ledgers() == old(Ledgers())[npcName := EmptyLedger];
      }
    }

    /** The addKill step of trackNpcKill, on a record already filed under its name. */
    method AddKillTo(data: NpcTrackingData, now: int)
      requires Valid()
      requires data.npcName in npcTrackingMap && npcTrackingMap[data.npcName] == data
      modifies data
      ensures Ledgers() == KillRecorded(old(Ledgers()), data.npcName, now)
    {
      label kill:
      data.AddKill(now);
      LedgersAfterRecordChange@kill(data.npcName);
    }

    /** The ledger part of trackNpcKill: file the name's record when missing and add the kill to it. */
    method RecordKill(npcName: string, now: int)
      requires Valid()
      modifies this, npcTrackingMap.Values
      ensures Valid()
      ensures fresh(npcTrackingMap.Values - old(npcTrackingMap.Values))
      ensures npcTrackingMap.Keys == old(npcTrackingMap).Keys + {npcName}
      ensures Ledgers() == KillRecorded(old(Ledgers()), npcName, now)
      ensures currentSlayerTask == old(currentSlayerTask)
      ensures previousInventoryValue == old(previousInventoryValue) && trackingInventoryValue == old(trackingInventoryValue)
      ensures currentTrackedNpc == old(currentTrackedNpc) && isTracking == old(isTracking)
    {
      KillRecordedOnFiled(Ledgers(), npcName, now);
      var data := LedgerFor(npcName);
      AddKillTo(data, now);
    }

    /**
     * trackNpcKill: look up or create the NPC's ledger (names are
     * case-sensitive keys), add the kill, and with auto-tracking on make the
     * NPC the tracked one.
     */
    method TrackNpcKill(npcName: string, now: int, autoTrackLastKilled: bool)
      requires Valid()
      modifies this, npcTrackingMap.Values
      ensures Valid()
      ensures fresh(npcTrackingMap.Values - old(npcTrackingMap.Values))
      ensures npcTrackingMap.Keys == old(npcTrackingMap).Keys + {npcName}
      ensures Ledgers() == KillRecorded(old(Ledgers()), npcName, now)
      ensures currentSlayerTask == old(currentSlayerTask)
      ensures previousInventoryValue == old(previousInventoryValue) && trackingInventoryValue == old(trackingInventoryValue)
      ensures currentTrackedNpc == if autoTrackLastKilled then Some(npcName) else old(currentTrackedNpc)
      ensures isTracking == if autoTrackLastKilled then true else old(isTracking)
    {
      RecordKill(npcName, now);
      if autoTrackLastKilled {
        currentTrackedNpc := Some(npcName);
        isTracking := true;
      }
    }

    /**
     * updateSlayerTask: a non-positive size or creature id clears the task;
     * a task name different from the current one installs a fresh task at
     * full size (and, with auto-tracking on, tracks the task name); the same
     * name only overwrites the remaining count.
     */
    method UpdateSlayerTask(taskSize: int, taskCreature: int, autoTrackSlayerTask: bool)
      requires Valid()
      modifies this, currentSlayerTask
      ensures Valid()
      ensures npcTrackingMap == old(npcTrackingMap) && Ledgers() == old(Ledgers())
      ensures previousInventoryValue == old(previousInventoryValue) && trackingInventoryValue == old(trackingInventoryValue)
      ensures !(taskSize > 0 && taskCreature > 0) ==>
        && currentSlayerTask == null
        && currentTrackedNpc == old(currentTrackedNpc) && isTracking == old(isTracking)
      ensures taskSize > 0 && taskCreature > 0
              && (old(currentSlayerTask) == null || old(currentSlayerTask).taskName != SlayerTaskName(taskCreature)) ==>
        && currentSlayerTask != null && fresh(currentSlayerTask)
        && currentSlayerTask.taskName == SlayerTaskName(taskCreature)
        && currentSlayerTask.originalAmount == taskSize && currentSlayerTask.remaining == taskSize
        && currentTrackedNpc == (if autoTrackSlayerTask then Some(SlayerTaskName(taskCreature)) else old(currentTrackedNpc))
        && isTracking == (if autoTrackSlayerTask then true else old(isTracking))
      ensures taskSize > 0 && taskCreature > 0
              && old(currentSlayerTask) != null && old(currentSlayerTask).taskName == SlayerTaskName(taskCreature) ==>
        && currentSlayerTask == old(currentSlayerTask)
        && currentSlayerTask.remaining == taskSize
        && currentTrackedNpc == old(currentTrackedNpc) && isTracking == old(isTracking)
    {
      if taskSize > 0 && taskCreature > 0 {
        var taskName := SlayerTaskName(taskCreature);
        if currentSlayerTask == null || currentSlayerTask.taskName != taskName {
          currentSlayerTask := new SlayerTaskData(taskName, taskSize, taskSize);
          if autoTrackSlayerTask {
            currentTrackedNpc := Some(taskName);
            isTracking := true;
          }
        } else {
          currentSlayerTask.SetRemaining(taskSize);
        }
      } else {
        currentSlayerTask := null;
      }
    }

    /**
     * cleanupOldData: on every hundredth tick, prune every ledger at now
     * minus the retention period, then drop the ledgers left with no kills;
     * on other ticks nothing changes.
     */
    method CleanupOldData(tickCount: int, now: int, dataRetentionHours: int)
      requires Valid()
      requires MinRetentionHours <= dataRetentionHours <= MaxRetentionHours
      modifies this, npcTrackingMap.Values
      ensures Valid()
      ensures npcTrackingMap.Values <= old(npcTrackingMap.Values)
      ensures currentTrackedNpc == old(currentTrackedNpc) && isTracking == old(isTracking)
      ensures currentSlayerTask == old(currentSlayerTask)
      ensures previousInventoryValue == old(previousInventoryValue) && trackingInventoryValue == old(trackingInventoryValue)
      ensures tickCount % 100 != 0 ==> npcTrackingMap == old(npcTrackingMap) && Ledgers() == old(Ledgers())
      ensures tickCount % 100 == 0 ==> Ledgers() == Sweep(old(Ledgers()), now - dataRetentionHours * SecondsPerHour)
    {
      // Java's % truncates toward zero and Dafny's is Euclidean, but the two
      // agree on whether the remainder is 0.
      if tickCount % 100 == 0 {
        SweepLedgers(now - dataRetentionHours * SecondsPerHour);
      }
    }

    /** The sweep of cleanupOldData: prune every ledger at the cutoff, then drop the ones with no kills. */
    method SweepLedgers(cutoff: int)
      requires Valid()
      modifies this, npcTrackingMap.Values
      ensures Valid()
      ensures npcTrackingMap.Values <= old(npcTrackingMap.Values)
      ensures Ledgers() == Sweep(old(Ledgers()), cutoff)
      ensures currentTrackedNpc == old(currentTrackedNpc) && isTracking == old(isTracking)
      ensures currentSlayerTask == old(currentSlayerTask)
      ensures previousInventoryValue == old(previousInventoryValue) && trackingInventoryValue == old(trackingInventoryValue)
    {
      SweepOfPruned(Ledgers(), cutoff);
      PruneAll(cutoff);
      DropEmpty();
    }

    /** The first step of the sweep: every ledger loses its buckets before the cutoff. */
    method PruneAll(cutoff: int)
      requires Valid()
      modifies npcTrackingMap.Values
      ensures Ledgers() == PrunedOn(old(Ledgers()), old(Ledgers()).Keys, cutoff)
    {
      var names := npcTrackingMap.Keys;
      ghost var done: set<string> := {};
      while names != {}
        invariant names !! done && names + done == npcTrackingMap.Keys
        invariant Ledgers() == PrunedOn(old(Ledgers()), done, cutoff)
        decreases names
      {
        ghost var someKey := AnyElement(names);
        var name :| name in names;
        var data := npcTrackingMap[name];
        label before:
        data.RemoveOldKills(cutoff);
        LedgersAfterRecordChange@before(name);
        PrunedOnStep(old(Ledgers()), done, name, cutoff);
        names := names - {name};
        done := done + {name};
      }
    }

    /** The second step of the sweep: the records left with no kills are removed from the map. */
    method DropEmpty()
      requires Valid()
      modifies this
      ensures Valid()
      ensures npcTrackingMap.Values <= old(npcTrackingMap.Values)
      ensures Ledgers() == WithKills(old(Ledgers()))
      ensures currentTrackedNpc == old(currentTrackedNpc) && isTracking == old(isTracking)
      ensures currentSlayerTask == old(currentSlayerTask)
      ensures previousInventoryValue == old(previousInventoryValue) && trackingInventoryValue == old(trackingInventoryValue)
    {
      npcTrackingMap := map n | n in npcTrackingMap && npcTrackingMap[n].totalKills != 0 :: npcTrackingMap[n];
    }

    /** resetTracking: the tracked NPC's ledger, when it has one, is emptied but stays in the map. */
    method ResetTracking()
      requires Valid()
      modifies npcTrackingMap.Values
      ensures Ledgers() ==
        if currentTrackedNpc.Some? && currentTrackedNpc.value in npcTrackingMap
        then old(Ledgers())[currentTrackedNpc.value := EmptyLedger]
        else old(Ledgers())
    {
      if currentTrackedNpc.Some? {
        var name := currentTrackedNpc.value;
        if name in npcTrackingMap {
          var data := npcTrackingMap[name];
          data.Reset();
          LedgersAfterRecordChange(name);
        }
      }
    }

    /** resetAllTracking: no ledgers and nothing tracked; the task and gold sampling are kept. */
    method ResetAllTracking()
      requires Valid()
      modifies this
      ensures Valid()
      ensures npcTrackingMap == map[] && Ledgers() == map[]
      ensures currentTrackedNpc == None && !isTracking && !IsTracking()
      ensures currentSlayerTask == old(currentSlayerTask)
      ensures previousInventoryValue == old(previousInventoryValue) && trackingInventoryValue == old(trackingInventoryValue)
    {
      npcTrackingMap := map[];
      currentTrackedNpc := None;
      isTracking := false;
    }

    /** setTrackedNpc: track the given name, or stop tracking when there is none. */
    method SetTrackedNpc(npcName: Option<string>)
      requires Valid()
      modifies this
      ensures Valid()
      ensures currentTrackedNpc == npcName && isTracking == npcName.Some? && IsTracking() == npcName.Some?
      ensures npcTrackingMap == old(npcTrackingMap) && Ledgers() == old(Ledgers())
      ensures currentSlayerTask == old(currentSlayerTask)
      ensures previousInventoryValue == old(previousInventoryValue) && trackingInventoryValue == old(trackingInventoryValue)
    {
      currentTrackedNpc := npcName;
      isTracking := npcName.Some?;
    }

    /**
     * When, since an earlier state, only the record filed under one name has
     * changed, Ledgers() has changed at that name only.
     */
    twostate lemma LedgersAfterRecordChange(name: string)
      requires npcTrackingMap == old(npcTrackingMap)
      requires forall n | n in npcTrackingMap :: npcTrackingMap[n].npcName == n
      requires name in npcTrackingMap
      requires forall n | n in npcTrackingMap && n != name :: unchanged(npcTrackingMap[n])
      ensures Ledgers() == old(Ledgers())[name := npcTrackingMap[name].View()]
    {
    }

    /** isTracking(): the flag, and a tracked name to go with it. */
    function IsTracking(): (r: bool)
      reads this
      ensures r ==> currentTrackedNpc.Some?
    {
      isTracking && currentTrackedNpc.Some?
    }

    /**
     * getEstimatedTimeRemaining up to the hours value: none without a task,
     * without tracking, without a ledger for the tracked name or with a rate
     * of 0 or less; otherwise the remaining count divided by the rate.
     */
    method GetEstimatedTimeRemaining(useRecentKphForEstimate: bool, recentTimeMinutes: int, now: int)
      returns (hoursRemaining: Option<real>)
      requires Valid()
      requires MinRecentMinutes <= recentTimeMinutes <= MaxRecentMinutes
      ensures hoursRemaining.Some? <==>
        && currentSlayerTask != null && IsTracking() && currentTrackedNpc.value in Ledgers()
        && EstimateRate(Ledgers()[currentTrackedNpc.value], useRecentKphForEstimate, recentTimeMinutes, now) > 0.0
      ensures hoursRemaining.Some? ==>
        hoursRemaining.value * EstimateRate(Ledgers()[currentTrackedNpc.value], useRecentKphForEstimate, recentTimeMinutes, now)
          == currentSlayerTask.remaining as real
      ensures hoursRemaining.Some? ==> hoursRemaining.value >= 0.0
    {
      if currentSlayerTask == null || !IsTracking() {
        return None;
      }
      var name := currentTrackedNpc.value;
      if name !in npcTrackingMap {
        return None;
      }
      var data := npcTrackingMap[name];
      var kph: real;
      if useRecentKphForEstimate {
        kph := data.GetRecentKillsPerHour(now, recentTimeMinutes);
      } else {
        kph := data.View().KillsPerHour();
      }
      if kph <= 0.0 {
        return None;
      }
      var remaining := currentSlayerTask.remaining;
      hoursRemaining := Some(remaining as real / kph);
    }
  }

  /** Under the coordinator invariant, isTracking() is the tracking flag itself. */
  lemma IsTrackingIsFlag(p: NpcKphTrackerPlugin)
    requires p.Valid()
    ensures p.IsTracking() == p.isTracking
  {
  }
}
