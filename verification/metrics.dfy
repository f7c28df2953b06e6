/** Status tallies and the rounded completion percentage shown by the
    dashboard cards (MetricsCards.jsx) and the map overlay (MapStats.jsx). */
module Metrics {
  import opened Wrappers
  import opened ReportModel

  /** Number of reports whose status is exactly `st`. */
  function CountStatus(rs: seq<Report>, st: string): (n: nat)
    ensures n <= |rs|
  {
    if |rs| == 0 then 0 else (if rs[0].status == st then 1 else 0) + CountStatus(rs[1..], st)
  }

  /** Reports whose status is none of the three counted buckets
      (`rejected` and any unknown status). */
  function CountUncounted(rs: seq<Report>): (n: nat)
    ensures n <= |rs|
  {
    if |rs| == 0 then 0
    else (if rs[0].status !in {Pending, InProgress, Completed} then 1 else 0) + CountUncounted(rs[1..])
  }

  datatype StatusCounts = StatusCounts(total: nat, pending: nat, inProgress: nat, completed: nat)

  /** The four counters both views compute from a report list. */
  function Tally(rs: seq<Report>): (c: StatusCounts)
    ensures c.total == |rs|
    ensures c.pending + c.inProgress + c.completed <= c.total
  {
    TallyPartition(rs);
    StatusCounts(|rs|, CountStatus(rs, Pending), CountStatus(rs, InProgress), CountStatus(rs, Completed))
  }

  /** The three buckets and the uncounted reports partition the list. */
  lemma {:induction false} TallyPartition(rs: seq<Report>)
    ensures CountStatus(rs, Pending) + CountStatus(rs, InProgress) + CountStatus(rs, Completed)
            + CountUncounted(rs) == |rs|
    decreases |rs|
  {
    if |rs| > 0 {
      TallyPartition(rs[1..]);
    }
  }

  /** `totalReports > 0 ? Math.round((part / totalReports) * 100) : 0`, in
      integers: `Math.round` rounds half up. */
  function RoundedPercent(part: int, total: int): (r: int)
    ensures total <= 0 ==> r == 0
    ensures total > 0 ==> 2 * total * r - total <= 200 * part < 2 * total * r + total
    ensures total > 0 && 0 <= part <= total ==> 0 <= r <= 100
  {
    if total > 0 then
      var r := (200 * part + total) / (2 * total);
      HalfUpBounds(part, total, r);
      r
    else 0
  }

  lemma HalfUpBounds(part: int, total: int, r: int)
    requires total > 0 && r == (200 * part + total) / (2 * total)
    ensures 2 * total * r - total <= 200 * part < 2 * total * r + total
    ensures 0 <= part <= total ==> 0 <= r <= 100
  {
    var k := 2 * total;
    assert k * r <= 200 * part + total < k * r + k;
    if 0 <= part <= total {
      assert k * r < k * 101;
      MulCancelLt(k, r, 101);
      assert k * (-1) < k * r;
      MulCancelLt(k, -1, r);
    }
  }

  /** Cancelling a positive factor from a strict inequality. */
  lemma MulCancelLt(k: int, a: int, b: int)
    requires k > 0 && k * a < k * b
    ensures a < b
  {
    if a >= b {
      MulMono(k, b, a);
    }
  }

  lemma MulMono(k: int, a: int, b: int)
    requires k >= 0 && a <= b
    ensures k * a <= k * b
  {
    assert k * b - k * a == k * (b - a);
  }

  /** The rounding is determined by its defining inequality: the rate is
      the unique integer within half a point of `100 * part / total`, ties
      going up. */
  lemma RoundedPercentUnique(part: int, total: int, r: int)
    requires total > 0
    requires 2 * total * r - total <= 200 * part < 2 * total * r + total
    ensures r == RoundedPercent(part, total)
  {
    var q := RoundedPercent(part, total);
    var k := 2 * total;
    assert k * q - total <= 200 * part < k * q + total;
    assert k * q < k * (r + 1);
    MulCancelLt(k, q, r + 1);
    assert k * r < k * (q + 1);
    MulCancelLt(k, r, q + 1);
  }

  lemma RoundedPercentEnds(total: int)
    requires total > 0
    ensures RoundedPercent(total, total) == 100
    ensures RoundedPercent(0, total) == 0
  {
    RoundedPercentUnique(total, total, 100);
    RoundedPercentUnique(0, total, 0);
  }

  lemma RoundedPercentExamples()
    ensures RoundedPercent(2, 4) == 50
    ensures RoundedPercent(1, 8) == 13
    ensures RoundedPercent(1, 3) == 33
    ensures RoundedPercent(2, 3) == 67
  {
  }

  /** A larger completed count never lowers the rate. */
  lemma RoundedPercentMonotone(p1: int, p2: int, total: int)
    requires p1 <= p2
    ensures RoundedPercent(p1, total) <= RoundedPercent(p2, total)
  {
    if total > 0 {
      var r1, r2 := RoundedPercent(p1, total), RoundedPercent(p2, total);
      var k := 2 * total;
      assert k * r1 - total <= 200 * p1 <= 200 * p2 < k * r2 + total;
      assert k * r1 < k * (r2 + 1);
      MulCancelLt(k, r1, r2 + 1);
    }
  }

  /** What the dashboard's completed card shows: the rate in its label and
      the width of its progress bar. */
  datatype CompletionCard = CompletionCard(completionRate: int, barWidth: int)

  function MetricsCards(c: StatusCounts): (v: CompletionCard)
    ensures v.barWidth == v.completionRate
    ensures c.total == 0 ==> v.completionRate == 0
    ensures c.completed <= c.total ==> 0 <= v.completionRate <= 100
    ensures c.total > 0 ==> 2 * c.total * v.completionRate - c.total <= 200 * c.completed < 2 * c.total * v.completionRate + c.total
  {
    var rate := RoundedPercent(c.completed, c.total);
    CompletionCard(rate, rate)
  }

  /** The map overlay's statistics panel. */
  datatype MapStatsView = MapStatsView(counts: StatusCounts, resolutionRate: int)

  function MapStats(rs: seq<Report>, isVisible: bool): (v: Option<MapStatsView>)
    ensures v.None? <==> !isVisible
    ensures v.Some? ==> v.value.counts == Tally(rs)
    ensures v.Some? ==> 0 <= v.value.resolutionRate <= 100
    ensures v.Some? && |rs| == 0 ==> v.value.resolutionRate == 0
    ensures v.Some? && |rs| > 0 ==>
              var c := v.value.counts.completed;
              2 * |rs| * v.value.resolutionRate - |rs| <= 200 * c < 2 * |rs| * v.value.resolutionRate + |rs|
  {
    if !isVisible then None
    else
      var c := Tally(rs);
      Some(MapStatsView(c, RoundedPercent(c.completed, c.total)))
  }
}
