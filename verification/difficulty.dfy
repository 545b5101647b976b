/**
 * Difficulty tiers, their generation settings, and the per-tier score statistics kept in the store as a
 * comma-joined triple `highscore,average,count`.
 */
module Difficulties {
  import opened Wrappers
  import opened Types
  import opened JsValues
  import opened Storage

  /** The numeric enum `Difficulty`: EASY = 0, MEDIUM = 1, HARD = 2, EXTREME = 3. */
  datatype Difficulty = Easy | Medium | Hard | Extreme

  function Ord(d: Difficulty): (n: int)
    ensures 0 <= n <= 3
  {
    match d
    case Easy => 0
    case Medium => 1
    case Hard => 2
    case Extreme => 3
  }

  /** Looking a number up as a key of the per-tier records: only 0, 1, 2 and 3 name a tier. */
  function FromNumber(x: JsNumber): (r: Option<Difficulty>)
    ensures r.Some? <==> x.Int? && 0 <= x.value <= 3
    ensures r.Some? ==> Ord(r.value) == x.value
  {
    if x == Int(0) then Some(Easy)
    else if x == Int(1) then Some(Medium)
    else if x == Int(2) then Some(Hard)
    else if x == Int(3) then Some(Extreme)
    else None
  }

  /** A tier's number looks the tier itself up again. */
  lemma OrdRoundTrip(d: Difficulty)
    ensures FromNumber(Int(Ord(d))) == Some(d)
  {
  }

  /**
   * `difficultySettings`: every tier asks for at least as many guests as its minimum, and starts with
   * fewer waiting guests than the minimum guest count.
   */
  function DifficultySettings(d: Difficulty): (s: Settings)
    ensures 0 < s.minAmount <= s.maxAmount
    ensures 0 < s.minInitialPanic < s.minAmount
  {
    match d
    case Easy => Settings(14, 16, 0.2, 3)
    case Medium => Settings(17, 19, 0.3, 4)
    case Hard => Settings(20, 22, 0.4, 5)
    case Extreme => Settings(24, 24, 0.6, 6)
  }

  /** Harder tiers never ask for fewer guests or fewer initially waiting guests. */
  lemma SettingsMonotone(a: Difficulty, b: Difficulty)
    requires Ord(a) <= Ord(b)
    ensures DifficultySettings(a).minAmount <= DifficultySettings(b).minAmount
    ensures DifficultySettings(a).maxAmount <= DifficultySettings(b).maxAmount
    ensures DifficultySettings(a).minInitialPanic <= DifficultySettings(b).minInitialPanic
  {
  }

  /** `getStorageKey`: one key per tier. */
  function StorageKeyFor(d: Difficulty): (k: StorageKey)
    ensures k != OnboardingStepKey && k != DifficultyKey
  {
    match d
    case Easy => DifficultyEasyKey
    case Medium => DifficultyMediumKey
    case Hard => DifficultyHardKey
    case Extreme => DifficultyExtremeKey
  }

  /** Different tiers keep their statistics apart. */
  lemma StorageKeysDistinct(a: Difficulty, b: Difficulty)
    requires StorageKeyFor(a) == StorageKeyFor(b)
    ensures a == b
  {
  }

  datatype DifficultyStats = DifficultyStats(highscore: JsNumber, average: JsNumber, count: JsNumber)

  /** `a + b` on numbers; anything with NaN is NaN. */
  function Add(a: JsNumber, b: JsNumber): (r: JsNumber)
    ensures r.Int? <==> a.Int? && b.Int?
  {
    if a.Int? && b.Int? then Int(a.value + b.value) else NaN
  }

  function Mul(a: JsNumber, b: JsNumber): (r: JsNumber)
    ensures r.Int? <==> a.Int? && b.Int?
  {
    if a.Int? && b.Int? then Int(a.value * b.value) else NaN
  }

  /** `Math.max(a, b)`: NaN when either is NaN. */
  function Max(a: JsNumber, b: JsNumber): (r: JsNumber)
    ensures r.Int? <==> a.Int? && b.Int?
    ensures r.Int? ==> r.value >= a.value && r.value >= b.value && (r.value == a.value || r.value == b.value)
  {
    if a.Int? && b.Int? then Int(if a.value >= b.value then a.value else b.value) else NaN
  }

  /** The floor of the quotient `n / d` for a divisor of either sign. */
  function FloorDiv(n: int, d: int): (q: int)
    requires d != 0
    ensures d > 0 ==> q * d <= n < (q + 1) * d
    ensures d < 0 ==> q * d >= n > (q + 1) * d
  {
    if d > 0 then n / d else (-n) / (-d)
  }

  /**
   * `Math.round(n / d)`: the nearest integer, halves rounded up. A zero divisor, which only a corrupted
   * count of -1 can produce, is collapsed into NaN.
   */
  function RoundDiv(n: JsNumber, d: JsNumber): (r: JsNumber)
    ensures r.Int? <==> n.Int? && d.Int? && d.value != 0
    ensures r.Int? && d.value > 0 ==> 2 * r.value * d.value <= 2 * n.value + d.value < 2 * (r.value + 1) * d.value
  {
    if n.Int? && d.Int? && d.value != 0 then Int(FloorDiv(2 * n.value + d.value, 2 * d.value)) else NaN
  }

  /** The numbers of the statistics entry after a game with `score` (the values `setDifficultyStats` stores). */
  function UpdatedStats(stats: DifficultyStats, score: int): (r: DifficultyStats)
    ensures stats.count.Int? ==> r.count == Int(stats.count.value + 1)
    ensures stats.highscore.Int? ==> r.highscore.Int? && r.highscore.value == (if stats.highscore.value >= score then stats.highscore.value else score)
  {
    var newCount := Add(stats.count, Int(1));
    var newAverage := RoundDiv(Add(Mul(stats.average, stats.count), Int(score)), newCount);
    DifficultyStats(Max(stats.highscore, Int(score)), newAverage, newCount)
  }

  /**
   * For well-formed statistics the update counts one more game, never lowers the highscore, and stores
   * the running average rounded to the nearest integer (halves up).
   */
  lemma UpdatedStatsMeaning(stats: DifficultyStats, score: int)
    requires stats.highscore.Int? && stats.average.Int? && stats.count.Int? && stats.count.value >= 0
    ensures var r := UpdatedStats(stats, score);
      var n := stats.average.value * stats.count.value + score;
      var d := stats.count.value + 1;
      r.count == Int(d)
      && r.highscore.Int? && r.highscore.value >= stats.highscore.value && r.highscore.value >= score
      && r.average.Int? && 2 * r.average.value * d <= 2 * n + d < 2 * (r.average.value + 1) * d
  {
  }

  /** The stored form: `[highscore, average, count].join(",")`. */
  function SerializeStats(stats: DifficultyStats): string {
    Join([NumberToString(stats.highscore), NumberToString(stats.average), NumberToString(stats.count)], ',')
  }

  /** The piece at `i` read with `Number`; a missing piece is `undefined`, which arithmetic treats like NaN. */
  function PieceAt(parts: seq<string>, i: nat): JsNumber {
    if i < |parts| then ParseNumber(parts[i]) else NaN
  }

  /** `storedScoreStats.split(",").map(Number)`, destructured into the triple. */
  function ParseStats(stored: string): DifficultyStats {
    var parts := Split(stored, ',');
    DifficultyStats(PieceAt(parts, 0), PieceAt(parts, 1), PieceAt(parts, 2))
  }

  /** Storing statistics and reading them back gives the same statistics. */
  lemma StatsRoundTrip(stats: DifficultyStats)
    ensures ParseStats(SerializeStats(stats)) == stats
  {
    var parts := [NumberToString(stats.highscore), NumberToString(stats.average), NumberToString(stats.count)];
    NumberHasNoComma(stats.highscore);
    NumberHasNoComma(stats.average);
    NumberHasNoComma(stats.count);
    SplitJoin(parts, ',');
    NumberRoundTrip(stats.highscore);
    NumberRoundTrip(stats.average);
    NumberRoundTrip(stats.count);
  }

  /** The zero statistics of a tier without any stored entry. */
  const NoStats := DifficultyStats(Int(0), Int(0), Int(0))

  /** `getDifficultyStats`: zeros when the tier has no (or an empty) entry, otherwise the parsed triple. */
  function GetDifficultyStats(storage: LocalStorage, d: Difficulty): (r: DifficultyStats)
    reads storage
    ensures !IsSet(storage.Get(StorageKeyFor(d))) ==> r == NoStats
  {
    var stored := storage.Get(StorageKeyFor(d));
    if IsSet(stored) then ParseStats(stored.value) else NoStats
  }

  /**
   * `setDifficultyStats`: a read-modify-write of the tier's entry. Only that entry changes, and reading it
   * back gives the updated statistics.
   */
  method SetDifficultyStats(storage: LocalStorage, d: Difficulty, score: int)
    modifies storage
    ensures storage.items == old(storage.items)[StorageKeyFor(d) := SerializeStats(UpdatedStats(old(GetDifficultyStats(storage, d)), score))]
    ensures GetDifficultyStats(storage, d) == UpdatedStats(old(GetDifficultyStats(storage, d)), score)
  {
    var stats := GetDifficultyStats(storage, d);
    var updated := UpdatedStats(stats, score);
    storage.Set(StorageKeyFor(d), SerializeStats(updated));
    StatsRoundTrip(updated);
    assert |SerializeStats(updated)| > 0 by {
      assert |NumberToString(updated.highscore)| >= 1;
    }
  }

  /** Starting from no entry, every game counts: after `k` games the stored count is `k`. */
  lemma {:induction false} CountAfterGames(stats: DifficultyStats, scores: seq<int>)
    requires stats.count.Int?
    ensures ApplyGames(stats, scores).count == Int(stats.count.value + |scores|)
  {
    if scores != [] {
      CountAfterGames(stats, scores[..|scores| - 1]);
    }
  }

  /** The statistics after a run of games, one update per game. */
  function ApplyGames(stats: DifficultyStats, scores: seq<int>): DifficultyStats {
    if scores == [] then stats else UpdatedStats(ApplyGames(stats, scores[..|scores| - 1]), scores[|scores| - 1])
  }
}
