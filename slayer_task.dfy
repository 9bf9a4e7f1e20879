/**
 * The slayer task (SlayerTaskData): a task name, the fixed size it was
 * assigned with and the kills still remaining, together with the
 * creature-id table that names a task and the case-insensitive test that
 * decides whether a killed NPC belongs to the task.
 */
module SlayerTask {

  /** The name getSlayerTaskName gives a creature id missing from its table. */
  const UnknownTask: string := "Unknown Task"

  /** Task names for creature ids 1 to 38, in id order. */
  const TaskNames: seq<string> := [
    "Crawling Hands", "Cave bugs", "Cave crawlers", "Banshees", "Cave slimes",
    "Rock slugs", "Desert lizards", "Cockatrices", "Pyrefiends", "Mogres",
    "Harpie bug swarms", "Wall beasts", "Killerwatts", "Molanisks", "Basilisks",
    "Sea snakes", "Turoth", "Fever spiders", "Infernal mages", "Brine rats",
    "Bloodvelds", "Jellies", "Spiritual rangers", "Spiritual warriors", "Dust devils",
    "Aberrant spectres", "Spiritual mages", "Kurasks", "Skeletal wyverns", "Gargoyles",
    "Nechryaels", "Abyssal demons", "Cave krakens", "Dark beasts", "Smoke devils",
    "Drakes", "Wyrms", "Hydras"]

  /**
   * getSlayerTaskName: the table is total. Ids 1 to 38 have their own
   * non-empty name and every other id gets "Unknown Task", so the name is
   * never missing.
   */
  function SlayerTaskName(taskCreature: int): (r: string)
    ensures |r| > 0
    ensures r == UnknownTask <==> !(1 <= taskCreature <= 38)
    ensures 1 <= taskCreature <= 38 ==> r == TaskNames[taskCreature - 1]
  {
    if 1 <= taskCreature <= |TaskNames| then TaskNames[taskCreature - 1] else UnknownTask
  }

  /** String.toLowerCase on one character, for the ASCII letters. */
  function LowerChar(c: char): char
  {
    if 'A' <= c <= 'Z' then (c as int + 32) as char else c
  }

  /**
   * String.toLowerCase: same length, every upper-case ASCII letter replaced
   * by its lower-case letter, every other character kept.
   */
  function ToLower(s: string): (r: string)
    ensures |r| == |s|
    ensures forall i | 0 <= i < |r| :: !('A' <= r[i] <= 'Z')
    ensures forall i | 0 <= i < |s| && 'A' <= s[i] <= 'Z' :: r[i] == (s[i] as int + 32) as char
    ensures forall i | 0 <= i < |s| && !('A' <= s[i] <= 'Z') :: r[i] == s[i]
  {
    seq(|s|, i requires 0 <= i < |s| => LowerChar(s[i]))
  }

  /** Lower-casing twice is lower-casing once. */
  lemma ToLowerIdempotent(s: string)
    ensures ToLower(ToLower(s)) == ToLower(s)
  {
  }

  /** needle occurs in haystack starting at position i. */
  predicate OccursAt(haystack: string, needle: string, i: int)
  {
    0 <= i <= |haystack| - |needle| && haystack[i..i + |needle|] == needle
  }

  /**
   * String.contains: needle occurs in haystack at some position. The empty
   * string and the haystack itself are always contained, and nothing longer
   * than the haystack is.
   */
  predicate Contains(haystack: string, needle: string): (r: bool)
    ensures needle == [] ==> r
    ensures needle == haystack ==> r
    ensures r ==> |needle| <= |haystack|
  {
    assert needle == [] || needle == haystack ==> OccursAt(haystack, needle, 0);
    exists i | 0 <= i <= |haystack| - |needle| :: OccursAt(haystack, needle, i)
  }

  /** The alias table of isAlternativeTaskName, keyed by lower-case task name. */
  const Alternatives: map<string, seq<string>> := map[
    "bloodvelds" := ["bloodveld", "mutated bloodveld"],
    "gargoyles" := ["gargoyle", "grotesque guardians"],
    "abyssal demons" := ["abyssal demon", "greater abyssal demon"],
    "dust devils" := ["dust devil", "choke devil"],
    "nechryaels" := ["nechryael", "greater nechryael"],
    "cave krakens" := ["cave kraken", "kraken"],
    "smoke devils" := ["smoke devil", "thermonuclear smoke devil"],
    "drakes" := ["drake"],
    "wyrms" := ["wyrm"],
    "hydras" := ["hydra", "alchemical hydra"]]

  /** The loop of isAlternativeTaskName: some alias occurs in the NPC name. */
  function ContainsAnyAlias(npcName: string, aliases: seq<string>): (r: bool)
    ensures r <==> exists j | 0 <= j < |aliases| :: Contains(npcName, aliases[j])
  {
    if aliases == [] then false
    else Contains(npcName, aliases[0]) || ContainsAnyAlias(npcName, aliases[1..])
  }

  /**
   * isAlternativeTaskName: the task (lower-cased) has aliases and the NPC
   * name contains one of them.
   */
  function IsAlternativeTaskName(taskName: string, npcName: string): (r: bool)
    ensures r <==> ToLower(taskName) in Alternatives
                   && exists j | 0 <= j < |Alternatives[ToLower(taskName)]| :: Contains(npcName, Alternatives[ToLower(taskName)][j])
  {
    var key := ToLower(taskName);
    key in Alternatives && ContainsAnyAlias(npcName, Alternatives[key])
  }

  /**
   * The matching rule of isSlayerTaskNpc for a present task and NPC name:
   * after lower-casing both, the NPC name contains the task name, the task
   * name contains the NPC name, or the NPC name contains an alias of the task.
   * So a containment either way after lower-casing is always a match, even
   * though the source lower-cases the task name twice.
   */
  predicate MatchesTask(taskName: string, npcName: string): (r: bool)
    ensures Contains(ToLower(npcName), ToLower(taskName)) ==> r
    ensures Contains(ToLower(taskName), ToLower(npcName)) ==> r
  {
    ToLowerIdempotent(taskName);
    var taskLower := ToLower(taskName);
    var npcLower := ToLower(npcName);
    Contains(npcLower, ToLower(taskLower)) || Contains(taskLower, npcLower) || IsAlternativeTaskName(taskLower, npcLower)
  }

  /** Matching ignores ASCII case on both sides. */
  lemma MatchesTaskIgnoresCase(taskName: string, npcName: string)
    ensures MatchesTask(taskName, npcName) == MatchesTask(ToLower(taskName), ToLower(npcName))
  {
    ToLowerIdempotent(taskName);
    ToLowerIdempotent(npcName);
  }

  /** An NPC whose name equals the task name up to case always matches. */
  lemma SameNameMatches(taskName: string, npcName: string)
    requires ToLower(taskName) == ToLower(npcName)
    ensures MatchesTask(taskName, npcName)
  {
    var n := ToLower(npcName);
    ToLowerIdempotent(taskName);
    assert n[0..|n|] == n;
    assert OccursAt(n, ToLower(ToLower(taskName)), 0);
  }

  /** The empty NPC name lies inside every task name, so it matches every task. */
  lemma EmptyNameMatchesEveryTask(taskName: string)
    ensures MatchesTask(taskName, "")
  {
    var t := ToLower(taskName);
    assert ToLower("") == "";
    assert t[0..0] == "";
    assert OccursAt(t, ToLower(""), 0);
  }

  /**
   * A task named by the plural of an NPC name ("Gargoyles" for "Gargoyle")
   * matches that NPC: the task name contains the NPC name.
   */
  lemma PluralTaskMatchesSingular(npcName: string)
    ensures MatchesTask(npcName + "s", npcName)
  {
    var t, n := ToLower(npcName + "s"), ToLower(npcName);
    assert t == n + "s";
    assert t[0..|n|] == n;
    assert OccursAt(t, n, 0);
  }

  /** A mutated bloodveld belongs to a Bloodvelds task through the alias table. */
  lemma MutatedBloodveldAlias()
    ensures MatchesTask("Bloodvelds", "Mutated Bloodveld")
  {
    assert ToLower("Bloodvelds") == "bloodvelds";
    assert ToLower("Mutated Bloodveld") == "mutated bloodveld";
    assert ToLower("bloodvelds") == "bloodvelds";
    assert "mutated bloodveld"[0..17] == Alternatives["bloodvelds"][1];
    assert OccursAt("mutated bloodveld", Alternatives["bloodvelds"][1], 0);
  }

  /** The Grotesque Guardians belong to a Gargoyles task through the alias table. */
  lemma GrotesqueGuardiansAlias()
    ensures MatchesTask("Gargoyles", "Grotesque Guardians")
  {
    assert ToLower("Gargoyles") == "gargoyles";
    assert ToLower("Grotesque Guardians") == "grotesque guardians";
    assert ToLower("gargoyles") == "gargoyles";
    assert "grotesque guardians"[0..19] == Alternatives["gargoyles"][1];
    assert OccursAt("grotesque guardians", Alternatives["gargoyles"][1], 0);
  }

  /**
   * decrementRemaining on the remaining count: it never grows, falls by at
   * most one, stays put exactly when it is not positive, and a non-negative
   * count stays non-negative.
   */
  function DecrementedRemaining(remaining: int): (r: int)
    ensures r <= remaining && remaining - r <= 1
    ensures r == remaining <==> remaining <= 0
    ensures remaining >= 0 ==> r >= 0
  {
    if remaining > 0 then remaining - 1 else remaining
  }

  /** The remaining count after the given number of matching kills. */
  function RemainingAfter(remaining: int, kills: nat): int
  {
    if kills == 0 then remaining else DecrementedRemaining(RemainingAfter(remaining, kills - 1))
  }

  /**
   * However many matching kills there are, a non-negative remaining count
   * goes down one per kill and stops at 0.
   */
  lemma {:induction false} RemainingFloorsAtZero(remaining: int, kills: nat)
    requires remaining >= 0
    ensures RemainingAfter(remaining, kills) == if kills <= remaining then remaining - kills else 0
  {
    if kills > 0 {
      RemainingFloorsAtZero(remaining, kills - 1);
    }
  }

  /** The current task; the name and the assigned size are fixed, the remaining count changes. */
  class SlayerTaskData {
    const taskName: string
    const originalAmount: int
    var remaining: int

    constructor (taskName: string, originalAmount: int, remaining: int)
      ensures this.taskName == taskName && this.originalAmount == originalAmount
      ensures this.remaining == remaining
    {
      this.taskName := taskName;
      this.originalAmount := originalAmount;
      this.remaining := remaining;
    }

    /** setRemaining: an unguarded overwrite. */
    method SetRemaining(remaining: int)
      modifies this
      ensures this.remaining == remaining
    {
      this.remaining := remaining;
    }

    method DecrementRemaining()
      modifies this
      ensures remaining == DecrementedRemaining(old(remaining))
      ensures old(remaining) >= 0 ==> remaining >= 0
    {
      if remaining > 0 {
        remaining := remaining - 1;
      }
    }

    /** getCompleted: the kills done, so that done and remaining make up the assigned size. */
    function Completed(): (r: int)
      reads this
      ensures r + remaining == originalAmount
    {
      originalAmount - remaining
    }

    /**
     * getProgressPercentage: 0 for a task of size 0; otherwise the completed
     * share of the size, in percent: within [0, 100] while the remaining
     * count is within the size, 0 before any kill and 100 when nothing
     * remains.
     */
    function ProgressPercentage(): (r: real)
      reads this
      ensures originalAmount == 0 ==> r == 0.0
      ensures originalAmount != 0 ==> r * (originalAmount as real) == 100.0 * (Completed() as real)
      ensures 0 <= remaining <= originalAmount ==> 0.0 <= r <= 100.0
      ensures originalAmount != 0 && remaining == originalAmount ==> r == 0.0
      ensures originalAmount != 0 && remaining == 0 ==> r == 100.0
    {
      if originalAmount == 0 then 0.0
      else (Completed() as real / originalAmount as real) * 100.0
    }
  }

  /** A 50-kill Gargoyles task after 30 matching kills: 30 done, 60 percent. */
  lemma GargoylesExample(task: SlayerTaskData)
    requires task.originalAmount == 50 && task.remaining == RemainingAfter(50, 30)
    ensures task.Completed() == 30
    ensures task.ProgressPercentage() == 60.0
  {
    RemainingFloorsAtZero(50, 30);
  }
}
