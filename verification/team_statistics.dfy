/**
 * The team service's statistics producer (`TeamStatisticsServiceImpl`): the number of teams, and
 * the mean number of developers per team, where a team with a null developer list counts as empty.
 */
module TeamStatistics {
  import opened Wrappers
  import opened Tables
  import opened TeamModel
  import opened StatisticsMessages

  /** The size of a team: its number of developer ids, 0 when the list is null. */
  function TeamSize(t: Team): (n: nat)
    ensures t.developerIds.Some? ==> n == |t.developerIds.value|
    ensures t.developerIds.None? ==> n == 0
  {
    if t.developerIds.Some? then |t.developerIds.value| else 0
  }

  /** The sum of the sizes of the teams in `ts`. */
  function SumOfSizes(ts: seq<Team>): nat
  {
    if ts == [] then 0 else SumOfSizes(ts[..|ts| - 1]) + TeamSize(ts[|ts| - 1])
  }

  /** The size of the largest team in `ts`, 0 for no teams. */
  function LargestSize(ts: seq<Team>): (m: nat)
    ensures forall i | 0 <= i < |ts| :: TeamSize(ts[i]) <= m
    ensures ts != [] ==> exists i | 0 <= i < |ts| :: TeamSize(ts[i]) == m
  {
    if ts == [] then 0
    else
      var rest := LargestSize(ts[..|ts| - 1]);
      var last := TeamSize(ts[|ts| - 1]);
      if ts[..|ts| - 1] == [] || last >= rest then last else rest
  }

  /** No team is larger than the largest, so the sizes add up to at most that many per team. */
  lemma {:induction false} SumAtMostLargest(ts: seq<Team>)
    ensures SumOfSizes(ts) <= |ts| * LargestSize(ts)
  {
    if ts != [] {
      var n := |ts| - 1;
      var init := ts[..n];
      var largest := LargestSize(ts);
      SumAtMostLargest(init);
      assert LargestSize(init) <= largest by {
        if init != [] {
          var i :| 0 <= i < |init| && TeamSize(init[i]) == LargestSize(init);
          assert init[i] == ts[i];
        }
      }
      assert SumOfSizes(ts) == SumOfSizes(init) + TeamSize(ts[n]);
      assert TeamSize(ts[n]) <= largest;
      AddOneBounded(SumOfSizes(init), TeamSize(ts[n]), n, LargestSize(init), largest);
    }
  }

  /** The arithmetic step of `SumAtMostLargest`: one more item of at most `bound` adds at most `bound`. */
  lemma AddOneBounded(sum: nat, item: nat, n: nat, oldBound: nat, bound: nat)
    requires sum <= n * oldBound && oldBound <= bound && item <= bound
    ensures sum + item <= (n + 1) * bound
  {
    assert n * oldBound <= n * bound;
    assert (n + 1) * bound == n * bound + bound;
  }

  /** `average()` over `count` values adding up to `sum`, with `orElse(0.0)` for no values. */
  function Mean(sum: nat, count: nat): (mean: real)
    ensures count == 0 ==> mean == 0.0
    ensures count > 0 ==> mean == sum as real / count as real
    ensures 0.0 <= mean
  {
    if count == 0 then 0.0 else sum as real / count as real
  }

  /** The mean of values none of which exceeds `bound` does not exceed `bound`. */
  lemma MeanAtMost(sum: nat, count: nat, bound: nat)
    requires sum <= count * bound
    ensures Mean(sum, count) <= bound as real
  {
    if count > 0 {
      var mean := Mean(sum, count);
      assert (count * bound) as real == count as real * bound as real;
      if mean > bound as real {
        assert mean * count as real > bound as real * count as real;
      }
    }
  }

  /** `getTeamCount`: the number of stored teams. The average size is never set, so the receiver reads 0. */
  function GetTeamCount(teams: Table<Team>): (r: TeamCountResponse)
    requires teams.Valid()
    ensures r.totalTeams == |teams.rows|
    ensures r.averageTeamSize == 0
  {
    TeamCountResponse(teams.Count(), 0)
  }

  /**
   * `getAverageTeamSize` over the teams `findAll` lists: the sum of their sizes divided by their
   * number, and exactly 0 when there are none.
   */
  function GetAverageTeamSize(listed: seq<Team>): (r: AverageTeamSizeResponse)
    ensures listed == [] ==> r.averageSize == 0.0
    ensures listed != [] ==> r.averageSize == SumOfSizes(listed) as real / |listed| as real
    ensures 0.0 <= r.averageSize <= LargestSize(listed) as real
  {
    SumAtMostLargest(listed);
    MeanAtMost(SumOfSizes(listed), |listed|, LargestSize(listed));
    AverageTeamSizeResponse(Mean(SumOfSizes(listed), |listed|))
  }
}
