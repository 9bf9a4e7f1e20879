/**
 * The per-NPC kill ledger (NpcTrackingData): kills counted in one-minute
 * buckets, a running kill total, the gold attributed to the NPC and the
 * first and last kill instants, with the rates derived from them.
 *
 * `Ledger` is the value of a ledger's fields at one moment; its member
 * functions say what each operation does to that value. The class
 * `NpcTrackingData` holds the fields and changes them in place, and each of
 * its methods is proved to take `View()` to the value the matching function
 * gives.
 */
module KillLedger {
  import opened Options
  import opened TimeUnits
  import opened Buckets

  /** The count a bucket map holds for a key, 0 when the key is absent (Map.merge's start). */
  function CountAt(buckets: map<int, int>, key: int): int
  {
    if key in buckets then buckets[key] else 0
  }

  function Min(a: int, b: int): int { if a <= b then a else b }
  function Max(a: int, b: int): int { if a >= b then a else b }

  /**
   * The raw first and last kill instants lie in the minutes of the least and
   * the greatest bucket.
   */
  ghost predicate BoundsMatchBuckets(buckets: map<int, int>, first: int, last: int)
  {
    && first <= last
    && TruncateToMinute(first) in buckets
    && TruncateToMinute(last) in buckets
    && forall k | k in buckets :: TruncateToMinute(first) <= k <= TruncateToMinute(last)
  }

  /** The fields of one NpcTrackingData object. Instants are seconds. */
  datatype Ledger = Ledger(
    buckets: map<int, int>,
    totalKills: int,
    totalGpGained: int,
    firstKill: Option<int>,
    lastKill: Option<int>)
  {
    /**
     * The ledger invariant: the kill total is the sum of the buckets, the
     * gold total is never negative (gold only ever grows by a positive
     * gain), every bucket is a minute start holding at least one kill, and
     * the first and last kill are both absent exactly when there are no
     * buckets and otherwise fall in the least and greatest bucket's minute.
     */
    ghost predicate Valid()
    {
      && totalKills == Total(buckets)
      && totalGpGained >= 0
      && (forall k | k in buckets :: 0 < buckets[k] && TruncateToMinute(k) == k)
      && (firstKill.None? <==> buckets == map[])
      && (firstKill.None? <==> lastKill.None?)
      && (firstKill.Some? ==> BoundsMatchBuckets(buckets, firstKill.value, lastKill.value))
    }

    /**
     * addKill: one more kill in the bucket of the timestamp's minute; the
     * first and last kill move out to the raw (untruncated) timestamp.
     */
    function AddKill(timestamp: int): (r: Ledger)
      ensures r.buckets.Keys == buckets.Keys + {TruncateToMinute(timestamp)}
      ensures r.buckets[TruncateToMinute(timestamp)] == CountAt(buckets, TruncateToMinute(timestamp)) + 1
      ensures forall k | k in buckets && k != TruncateToMinute(timestamp) :: r.buckets[k] == buckets[k]
      ensures r.totalKills == totalKills + 1 && r.totalGpGained == totalGpGained
      ensures r.firstKill == Some(if firstKill.Some? then Min(firstKill.value, timestamp) else timestamp)
      ensures r.lastKill == Some(if lastKill.Some? then Max(lastKill.value, timestamp) else timestamp)
    {
      var key := TruncateToMinute(timestamp);
      Ledger(
        buckets[key := CountAt(buckets, key) + 1],
        totalKills + 1,
        totalGpGained,
        if firstKill.None? || timestamp < firstKill.value then Some(timestamp) else firstKill,
        if lastKill.None? || timestamp > lastKill.value then Some(timestamp) else lastKill)
    }

    /**
     * addGpGain: the gold total moves by the amount; the kills are
     * untouched, and a valid ledger stays valid under a non-negative amount.
     */
    function AddGpGain(gpAmount: int): (r: Ledger)
      ensures r.totalGpGained - totalGpGained == gpAmount
      ensures r.buckets == buckets && r.totalKills == totalKills
      ensures r.firstKill == firstKill && r.lastKill == lastKill
      ensures Valid() && gpAmount >= 0 ==> r.Valid()
    {
      this.(totalGpGained := totalGpGained + gpAmount)
    }

    /**
     * removeOldKills followed by recalculateTotals: the buckets strictly
     * before the cutoff go, the total becomes the sum of those left, and the
     * first and last kill become the least and greatest remaining bucket
     * key, or absent when none is left. The gold total is not touched.
     */
    ghost function RemoveOldKills(cutoff: int): (r: Ledger)
      ensures r.buckets.Keys == set k | k in buckets && cutoff <= k
      ensures forall k | k in r.buckets :: r.buckets[k] == buckets[k]
      ensures r.totalKills == Total(r.buckets) && r.totalGpGained == totalGpGained
      ensures r.firstKill.None? <==> r.buckets.Keys == {}
      ensures r.lastKill.None? <==> r.buckets.Keys == {}
      ensures r.firstKill.Some? ==> r.firstKill.value in r.buckets && forall k | k in r.buckets :: r.firstKill.value <= k
      ensures r.lastKill.Some? ==> r.lastKill.value in r.buckets && forall k | k in r.buckets :: k <= r.lastKill.value
    {
      var kept := map k | k in buckets && cutoff <= k :: buckets[k];
      Ledger(
        kept,
        Total(kept),
        totalGpGained,
        if kept.Keys == {} then None else Some(SetMin(kept.Keys)),
        if kept.Keys == {} then None else Some(SetMax(kept.Keys)))
    }

    /** The whole minutes from the first to the last kill (ChronoUnit.MINUTES.between). */
    function SpanMinutes(): int
      requires firstKill.Some? && lastKill.Some?
    {
      MinutesBetween(firstKill.value, lastKill.value)
    }

    /**
     * getKillsPerHour: 0 with no kills, no bounds or a span under one whole
     * minute; otherwise the kills divided by the span in hours.
     */
    function KillsPerHour(): (r: real)
      ensures totalKills == 0 || firstKill.None? || lastKill.None? ==> r == 0.0
      ensures firstKill.Some? && lastKill.Some? && SpanMinutes() == 0 ==> r == 0.0
      ensures totalKills != 0 && firstKill.Some? && lastKill.Some? && SpanMinutes() != 0 ==> r * (SpanMinutes() as real) == (totalKills * 60) as real
    {
      if totalKills == 0 || firstKill.None? || lastKill.None? then 0.0
      else
        var minutes := SpanMinutes();
        if minutes == 0 then 0.0 else totalKills as real / (minutes as real / 60.0)
    }

    /** getGpPerHour: as KillsPerHour, over the gold total. */
    function GpPerHour(): (r: real)
      ensures totalGpGained == 0 || firstKill.None? || lastKill.None? ==> r == 0.0
      ensures firstKill.Some? && lastKill.Some? && SpanMinutes() == 0 ==> r == 0.0
      ensures totalGpGained != 0 && firstKill.Some? && lastKill.Some? && SpanMinutes() != 0 ==> r * (SpanMinutes() as real) == (totalGpGained * 60) as real
    {
      if totalGpGained == 0 || firstKill.None? || lastKill.None? then 0.0
      else
        var minutes := SpanMinutes();
        if minutes == 0 then 0.0 else totalGpGained as real / (minutes as real / 60.0)
    }

    /** getAverageGpPerKill: the gold total shared out over the kills, 0 with no kills. */
    function AverageGpPerKill(): (r: real)
      ensures totalKills == 0 ==> r == 0.0
      ensures totalKills != 0 ==> r * (totalKills as real) == totalGpGained as real
    {
      if totalKills == 0 then 0.0 else totalGpGained as real / totalKills as real
    }

    /** The bucket keys strictly after the cutoff. */
    ghost function RecentKeys(cutoff: int): (ks: set<int>)
      ensures ks <= buckets.Keys
    {
      set k | k in buckets && cutoff < k
    }

    /** The kills in buckets strictly after the cutoff. */
    ghost function RecentKills(cutoff: int): int
    {
      SumOver(buckets, RecentKeys(cutoff))
    }

    /**
     * getRecentKillsPerHour(minutes) at instant now: the kills in buckets
     * strictly after now - minutes, per hour of the window; 0 when there
     * are none.
     */
    ghost function RecentKillsPerHour(now: int, minutes: int): (r: real)
      requires minutes != 0
      ensures r * (minutes as real) == (RecentKills(now - minutes * SecondsPerMinute) * 60) as real
    {
      var recentKills := RecentKills(now - minutes * SecondsPerMinute);
      if recentKills == 0 then 0.0 else recentKills as real / (minutes as real / 60.0)
    }
  }

  /** A new (or reset) ledger. */
  const EmptyLedger: Ledger := Ledger(map[], 0, 0, None, None)

  /** The ledger after one addKill per timestamp, in order. */
  function AddKills(l: Ledger, timestamps: seq<int>): Ledger
    decreases |timestamps|
  {
    if timestamps == [] then l else AddKills(l.AddKill(timestamps[0]), timestamps[1..])
  }

  lemma EmptyLedgerValid()
    ensures EmptyLedger.Valid()
  {
  }

  /** addKill keeps the ledger invariant. */
  lemma AddKillValid(l: Ledger, timestamp: int)
    requires l.Valid()
    ensures l.AddKill(timestamp).Valid()
  {
    var r := l.AddKill(timestamp);
    var key := TruncateToMinute(timestamp);
    TotalIncrement(l.buckets, key);
    if l.firstKill.Some? {
      var f, g := l.firstKill.value, l.lastKill.value;
      TruncateMonotone(Min(f, timestamp), f);
      TruncateMonotone(Min(f, timestamp), timestamp);
      TruncateMonotone(g, Max(g, timestamp));
      TruncateMonotone(timestamp, Max(g, timestamp));
      assert TruncateToMinute(Min(f, timestamp)) in r.buckets;
      assert TruncateToMinute(Max(g, timestamp)) in r.buckets;
      assert BoundsMatchBuckets(r.buckets, r.firstKill.value, r.lastKill.value);
    } else {
      assert r.buckets == map[key := 1];
    }
  }

  /**
   * Kills added one at a time to a valid ledger: the ledger stays valid and
   * its total grows by exactly the number of kills.
   */
  lemma {:induction false} AddKillsCount(l: Ledger, timestamps: seq<int>)
    requires l.Valid()
    ensures AddKills(l, timestamps).Valid()
    ensures AddKills(l, timestamps).totalKills == l.totalKills + |timestamps|
    decreases |timestamps|
  {
    if timestamps != [] {
      AddKillValid(l, timestamps[0]);
      AddKillsCount(l.AddKill(timestamps[0]), timestamps[1..]);
    }
  }

  /** In a valid ledger the kill total is never negative, and it is 0 exactly when there are no buckets. */
  lemma NoKillsIffNoBuckets(l: Ledger)
    requires l.Valid()
    ensures l.totalKills >= 0
    ensures l.totalKills == 0 <==> l.buckets.Keys == {}
  {
    SumOverPositive(l.buckets, l.buckets.Keys);
  }

  /** Pruning keeps the ledger invariant. */
  lemma RemoveOldKillsValid(l: Ledger, cutoff: int)
    requires l.Valid()
    ensures l.RemoveOldKills(cutoff).Valid()
  {
    var r := l.RemoveOldKills(cutoff);
    if r.buckets.Keys != {} {
      var f, g := r.firstKill.value, r.lastKill.value;
      assert TruncateToMinute(f) == f && TruncateToMinute(g) == g;
      assert BoundsMatchBuckets(r.buckets, f, g);
    } else {
      assert r.buckets == map[];
    }
  }

  /** Pruning twice with the same cutoff is pruning once. */
  lemma RemoveOldKillsIdempotent(l: Ledger, cutoff: int)
    ensures l.RemoveOldKills(cutoff).RemoveOldKills(cutoff) == l.RemoveOldKills(cutoff)
  {
    var once := l.RemoveOldKills(cutoff);
    var twice := once.RemoveOldKills(cutoff);
    assert twice.buckets == once.buckets;
  }

  /**
   * On a valid ledger getKillsPerHour is never negative, and it is positive
   * exactly when there is a kill and the first and last kill lie at least
   * one whole minute apart.
   */
  lemma KillsPerHourOfValid(l: Ledger)
    requires l.Valid()
    ensures l.KillsPerHour() >= 0.0
    ensures l.KillsPerHour() > 0.0 <==> l.totalKills > 0 && l.lastKill.value - l.firstKill.value >= SecondsPerMinute
  {
    NoKillsIffNoBuckets(l);
    if l.totalKills > 0 {
      var m := l.SpanMinutes();
      assert m >= 0;
      if m > 0 {
        assert l.KillsPerHour() == (l.totalKills * 60) as real / m as real;
      }
    }
  }

  /**
   * The gold rate is the kill rate times the gold per kill: the two rates
   * share the first-to-last span, and getAverageGpPerKill shares the kills.
   */
  lemma GpRateIsKillRateTimesAverage(l: Ledger)
    requires l.totalKills != 0
    ensures l.GpPerHour() == l.KillsPerHour() * l.AverageGpPerKill()
  {
    if l.firstKill.Some? && l.lastKill.Some? && l.SpanMinutes() != 0 && l.totalGpGained != 0 {
      var k, g, m := l.totalKills as real, l.totalGpGained as real, l.SpanMinutes() as real;
      assert l.KillsPerHour() == k * 60.0 / m;
      assert l.AverageGpPerKill() == g / k;
      assert l.GpPerHour() == g * 60.0 / m;
      assert (k * 60.0 / m) * (g / k) == g * 60.0 / m;
    }
  }

  /** On a valid ledger the recent rate over a positive window is never negative. */
  lemma RecentRateOfValid(l: Ledger, now: int, minutes: int)
    requires l.Valid() && minutes > 0
    ensures l.RecentKillsPerHour(now, minutes) >= 0.0
  {
    var cutoff := now - minutes * SecondsPerMinute;
    SumOverPositive(l.buckets, l.RecentKeys(cutoff));
    var r := l.RecentKillsPerHour(now, minutes);
    assert r * (minutes as real) >= 0.0;
  }

  /** On a valid ledger the gold rate and the gold per kill are never negative. */
  lemma GoldRatesOfValid(l: Ledger)
    requires l.Valid()
    ensures l.GpPerHour() >= 0.0
    ensures l.AverageGpPerKill() >= 0.0
  {
    NoKillsIffNoBuckets(l);
    if l.firstKill.Some? && l.lastKill.Some? && l.totalGpGained != 0 {
      var m := l.SpanMinutes();
      assert m >= 0;
      if m > 0 {
        assert l.GpPerHour() == (l.totalGpGained * 60) as real / m as real;
      }
    }
    if l.totalKills != 0 {
      assert l.AverageGpPerKill() == l.totalGpGained as real / l.totalKills as real;
    }
  }

  /** Two kills ten minutes apart give 12 kills per hour, whatever the start. */
  lemma TwoKillsTenMinutesApart(t: int)
    ensures EmptyLedger.AddKill(t).AddKill(t + 10 * SecondsPerMinute).KillsPerHour() == 12.0
  {
  }

  /**
   * getRecentKillsPerHour depends only on the buckets after the window's
   * start: two ledgers that agree there give the same rate.
   */
  lemma RecentRateIgnoresOlderBuckets(l1: Ledger, l2: Ledger, now: int, minutes: int)
    requires minutes != 0
    requires forall k | now - minutes * SecondsPerMinute < k :: (k in l1.buckets <==> k in l2.buckets)
    requires forall k | now - minutes * SecondsPerMinute < k && k in l1.buckets :: l1.buckets[k] == l2.buckets[k]
    ensures l1.RecentKillsPerHour(now, minutes) == l2.RecentKillsPerHour(now, minutes)
  {
    var cutoff := now - minutes * SecondsPerMinute;
    assert l1.RecentKeys(cutoff) == l2.RecentKeys(cutoff);
    SumOverAgree(l1.buckets, l2.buckets, l1.RecentKeys(cutoff));
  }

  /**
   * Three kills in the last ten minutes and five an hour earlier, with a
   * 15-minute window: only the three count, giving 12 kills per hour.
   */
  lemma RecentWindowExample()
    ensures Ledger(map[0 := 5, 3000 := 3], 8, 0, Some(0), Some(3000)).RecentKillsPerHour(3600, 15) == 12.0
  {
    var l := Ledger(map[0 := 5, 3000 := 3], 8, 0, Some(0), Some(3000));
    assert l.RecentKeys(2700) == {3000};
    SumOverSplit(l.buckets, {3000}, 3000);
    assert {3000} - {3000} == {};
  }

  /**
   * A prune that removes no bucket leaves a valid ledger whose first and
   * last kill are minute starts exactly as it was.
   */
  lemma PruneKeepingEveryBucket(l: Ledger, cutoff: int)
    requires l.Valid()
    requires forall k | k in l.buckets :: cutoff <= k
    requires l.firstKill.Some? ==> TruncateToMinute(l.firstKill.value) == l.firstKill.value
    requires l.lastKill.Some? ==> TruncateToMinute(l.lastKill.value) == l.lastKill.value
    ensures l.RemoveOldKills(cutoff) == l
  {
    var r := l.RemoveOldKills(cutoff);
    assert r.buckets == l.buckets;
    if l.firstKill.Some? {
      assert r.firstKill.value <= l.firstKill.value && l.firstKill.value <= r.firstKill.value;
      assert r.lastKill.value <= l.lastKill.value && l.lastKill.value <= r.lastKill.value;
    }
  }

  /**
   * A sweep that removes no bucket still moves the first and last kill to
   * their minute starts, and so can change getKillsPerHour: kills at 0:50
   * and 2:10 span one whole minute (120 per hour); after the sweep the
   * bounds are 0:00 and 2:00, two minutes (60 per hour).
   */
  lemma SweepRealignsBounds()
    ensures EmptyLedger.AddKill(50).AddKill(130).KillsPerHour() == 120.0
    ensures EmptyLedger.AddKill(50).AddKill(130).RemoveOldKills(0).buckets == EmptyLedger.AddKill(50).AddKill(130).buckets
    ensures EmptyLedger.AddKill(50).AddKill(130).RemoveOldKills(0).KillsPerHour() == 60.0
  {
    var l := EmptyLedger.AddKill(50).AddKill(130);
    assert l.buckets == map[0 := 1, 120 := 1];
    var r := l.RemoveOldKills(0);
    assert r.buckets == l.buckets;
    assert r.firstKill == Some(0) && r.lastKill == Some(120);
    assert r.buckets.Keys == {0, 120};
    SumOverSplit(r.buckets, {0, 120}, 0);
    SumOverSplit(r.buckets, {120}, 120);
    assert {0, 120} - {0} == {120} && {120} - {120} == {};
    assert r.totalKills == 2;
  }

  /**
   * One NPC's kill record, changed in place by the tracker. Each method is
   * proved to take View() to the value its Ledger function gives, so the
   * ledger invariant carries over from the Ledger lemmas (EmptyLedgerValid,
   * AddKillValid, RemoveOldKillsValid).
   */
  class NpcTrackingData {
    /** The name the tracker files this record under (a proof device, not a Java field). */
    ghost const npcName: string
    var killTimestamps: map<int, int>
    var totalKills: int
    var totalGpGained: int
    var firstKill: Option<int>
    var lastKill: Option<int>

    function View(): Ledger
      reads this
    {
      Ledger(killTimestamps, totalKills, totalGpGained, firstKill, lastKill)
    }

    constructor (ghost npcName: string)
      ensures this.npcName == npcName && View() == EmptyLedger
    {
      this.npcName := npcName;
      killTimestamps := map[];
      totalKills := 0;
      totalGpGained := 0;
      firstKill := None;
      lastKill := None;
    }

    method AddKill(timestamp: int)
      modifies this
      ensures View() == old(View()).AddKill(timestamp)
    {
      var key := TruncateToMinute(timestamp);
      killTimestamps := killTimestamps[key := CountAt(killTimestamps, key) + 1];
      totalKills := totalKills + 1;
      if firstKill.None? || timestamp < firstKill.value {
        firstKill := Some(timestamp);
      }
      if lastKill.None? || timestamp > lastKill.value {
        lastKill := Some(timestamp);
      }
    }

    method AddGpGain(gpAmount: int)
      modifies this
      ensures View() == old(View()).AddGpGain(gpAmount)
    {
      totalGpGained := totalGpGained + gpAmount;
    }

    method RemoveOldKills(cutoff: int)
      modifies this
      ensures View() == old(View()).RemoveOldKills(cutoff)
    {
      killTimestamps := map k | k in killTimestamps && cutoff <= k :: killTimestamps[k];
      RecalculateTotals();
    }

    /** recalculateTotals: the kill total and the bounds, recomputed from the buckets in one pass. */
    method RecalculateTotals()
      modifies this
      ensures killTimestamps == old(killTimestamps) && totalGpGained == old(totalGpGained)
      ensures totalKills == Total(killTimestamps)
      ensures firstKill == if killTimestamps.Keys == {} then None else Some(SetMin(killTimestamps.Keys))
      ensures lastKill == if killTimestamps.Keys == {} then None else Some(SetMax(killTimestamps.Keys))
    {
      var sum := 0;
      var least: Option<int> := None;
      var greatest: Option<int> := None;
      var rest := killTimestamps.Keys;
      ghost var done: set<int> := {};
      while rest != {}
        invariant killTimestamps == old(killTimestamps) && totalGpGained == old(totalGpGained)
        invariant rest !! done && rest + done == killTimestamps.Keys
        invariant sum == SumOver(killTimestamps, done)
        invariant least.None? <==> done == {}
        invariant greatest.None? <==> done == {}
        invariant least.Some? ==> least.value in done && forall k | k in done :: least.value <= k
        invariant greatest.Some? ==> greatest.value in done && forall k | k in done :: k <= greatest.value
        decreases rest
      {
        ghost var someKey := AnyElement(rest);
        var k :| k in rest;
        SumOverSplit(killTimestamps, done + {k}, k);
        assert done + {k} - {k} == done;
        sum := sum + killTimestamps[k];
        if least.None? || k < least.value {
          least := Some(k);
        }
        if greatest.None? || k > greatest.value {
          greatest := Some(k);
        }
        done := done + {k};
        rest := rest - {k};
      }
      totalKills := sum;
      if killTimestamps.Keys == {} {
        firstKill := None;
        lastKill := None;
      } else {
        firstKill := least;
        lastKill := greatest;
      }
    }

    /** getRecentKillsPerHour, summing the buckets after the window's start one key at a time. */
    method GetRecentKillsPerHour(now: int, minutes: int) returns (r: real)
      requires minutes != 0
      ensures r == View().RecentKillsPerHour(now, minutes)
    {
      var cutoff := now - minutes * SecondsPerMinute;
      var recentKills := 0;
      var rest := killTimestamps.Keys;
      ghost var done: set<int> := {};
      while rest != {}
        invariant rest !! done && rest + done == killTimestamps.Keys
        invariant recentKills == SumOver(killTimestamps, set j | j in done && cutoff < j)
        decreases rest
      {
        ghost var someKey := AnyElement(rest);
        var k :| k in rest;
        ghost var counted := set j | j in done && cutoff < j;
        if cutoff < k {
          SumOverSplit(killTimestamps, counted + {k}, k);
          assert counted + {k} - {k} == counted;
          recentKills := recentKills + killTimestamps[k];
        }
        done := done + {k};
        rest := rest - {k};
        assert (set j | j in done && cutoff < j) == if cutoff < k then counted + {k} else counted;
      }
      assert (set j | j in done && cutoff < j) == View().RecentKeys(cutoff);
      if recentKills == 0 {
        r := 0.0;
      } else {
        r := recentKills as real / (minutes as real / 60.0);
      }
    }

    method Reset()
      modifies this
      ensures View() == EmptyLedger
    {
      killTimestamps := map[];
      totalKills := 0;
      totalGpGained := 0;
      firstKill := None;
      lastKill := None;
    }
  }
}
