/** The dashboard figures (src/components/TodoStats.tsx), in exact integer arithmetic. */
module TodoStats {
  import opened JsMath
  import UseTodos

  /**
   * `completionRate`: 0 without tasks, otherwise the percentage of completed
   * tasks rounded to the nearest integer, halves up.
   */
  function CompletionRate(stats: UseTodos.Stats): (r: int)
    ensures stats.total == 0 ==> r == 0
    ensures stats.total > 0 ==>
      2 * stats.total * r <= 200 * stats.completed + stats.total < 2 * stats.total * r + 2 * stats.total
    ensures stats.completed <= stats.total ==> 0 <= r <= 100
  {
    if stats.total > 0 then
      RoundNonNegative(100 * stats.completed, stats.total);
      RoundExact(100, stats.total);
      var r := Round(100 * stats.completed, stats.total);
      assert stats.completed <= stats.total ==> r <= 100 by {
        if stats.completed <= stats.total {
          RoundMonotone(100 * stats.completed, 100 * stats.total, stats.total);
        }
      }
      r
    else 0
  }

  /** `productivity = Math.min(100, completionRate + completed * 5)`. */
  function Productivity(stats: UseTodos.Stats): (r: int)
    ensures r <= 100
    ensures stats.completed <= stats.total ==> CompletionRate(stats) <= r
    ensures r < 100 ==> r == CompletionRate(stats) + 5 * stats.completed
    ensures r == 100 <==> CompletionRate(stats) + 5 * stats.completed >= 100
  {
    Min(100, CompletionRate(stats) + stats.completed * 5)
  }

  /** The four banner levels. */
  datatype Level = Optimal | Stable | Moderate | Critical

  /** What `getSystemStatus` returns, without its colour. */
  datatype SystemStatus = SystemStatus(status: Level, pulse: bool)

  /** `getSystemStatus`: the first threshold the rate reaches decides the level. */
  function GetSystemStatus(completionRate: int): (r: SystemStatus)
    ensures r.status == Optimal <==> completionRate >= 90
    ensures r.status == Stable <==> 70 <= completionRate < 90
    ensures r.status == Moderate <==> 50 <= completionRate < 70
    ensures r.status == Critical <==> completionRate < 50
    ensures r.pulse <==> r.status == Optimal || r.status == Critical
  {
    if completionRate >= 90 then SystemStatus(Optimal, true)
    else if completionRate >= 70 then SystemStatus(Stable, false)
    else if completionRate >= 50 then SystemStatus(Moderate, false)
    else SystemStatus(Critical, true)
  }

  /** The levels from worst to best. */
  function Rank(l: Level): nat {
    match l
    case Critical => 0
    case Moderate => 1
    case Stable => 2
    case Optimal => 3
  }

  /** A higher completion rate never gives a worse status. */
  lemma StatusMonotone(rate: int, rate': int)
    requires rate <= rate'
    ensures Rank(GetSystemStatus(rate).status) <= Rank(GetSystemStatus(rate').status)
  {
  }
}
