/**
  The metrics engine: guarded per-record ratios, per-record chart series and
  collection averages. Every ratio returns 0 instead of dividing by zero.
  Ratios are exact reals; the `toFixed` rounding of the views is not modelled.
 */
module Metrics {
  import opened Wrappers
  import opened Types
  import opened Seqs

  /** Units produced per hour worked. */
  function Productivity(r: Record): (p: real)
    ensures r.workHours == 0.0 ==> p == 0.0
    ensures r.workHours != 0.0 ==> p * r.workHours == r.actualQuantity as real
    ensures ValidRecord(r) ==> p >= 0.0
  {
    if r.workHours == 0.0 then 0.0 else r.actualQuantity as real / r.workHours
  }

  /** Actual output as a percentage of the planned output. */
  function Efficiency(r: Record): (e: real)
    ensures PlannedOrZero(r) == 0 ==> e == 0.0
    ensures PlannedOrZero(r) != 0 ==> e * PlannedOrZero(r) as real == 100.0 * r.actualQuantity as real
    ensures ValidRecord(r) ==> e >= 0.0
    ensures ValidRecord(r) && r.actualQuantity <= PlannedOrZero(r) ==> e <= 100.0
  {
    var planned := PlannedOrZero(r);
    if planned == 0 then 0.0 else (r.actualQuantity as real / planned as real) * 100.0
  }

  /** Defective units as a percentage of the actual output. */
  function DefectRate(r: Record): (d: real)
    ensures r.actualQuantity == 0 ==> d == 0.0
    ensures r.actualQuantity != 0 ==> d * r.actualQuantity as real == 100.0 * r.defectCount as real
    ensures 0 <= r.defectCount <= r.actualQuantity ==> 0.0 <= d <= 100.0
  {
    if r.actualQuantity == 0 then 0.0
    else
      var d := (r.defectCount as real / r.actualQuantity as real) * 100.0;
      assert 0 <= r.defectCount <= r.actualQuantity ==> d <= 100.0 by {
        if 0 <= r.defectCount <= r.actualQuantity {
          assert r.defectCount as real / r.actualQuantity as real <= 1.0;
        }
      }
      d
  }

  /** Units produced per worker. */
  function OutputPerWorker(r: Record): (o: real)
    ensures r.workers == 0 ==> o == 0.0
    ensures r.workers != 0 ==> o * r.workers as real == r.actualQuantity as real
    ensures ValidRecord(r) ==> o >= 0.0
  {
    if r.workers == 0 then 0.0 else r.actualQuantity as real / r.workers as real
  }

  /** The four per-record metrics, so that series and averages are written once. */
  datatype Metric = EfficiencyMetric | DefectRateMetric | ProductivityMetric | OutputPerWorkerMetric

  function Measure(m: Metric, r: Record): real {
    match m
    case EfficiencyMetric => Efficiency(r)
    case DefectRateMetric => DefectRate(r)
    case ProductivityMetric => Productivity(r)
    case OutputPerWorkerMetric => OutputPerWorker(r)
  }

  function MetricOf(m: Metric): Record -> real {
    r => Measure(m, r)
  }

  /** One chart point: a date and a metric value. */
  datatype Point = Point(date: Day, value: real)

  function PointValue(p: Point): real {
    p.value
  }

  /** The metric of every record paired with the record's date, in input order (`data.map`). */
  function Series(data: seq<Record>, m: Metric): (r: seq<Point>)
    ensures |r| == |data|
    ensures forall i :: 0 <= i < |data| ==> r[i] == Point(data[i].date, Measure(m, data[i]))
    decreases |data|
  {
    if |data| == 0 then [] else Series(data[..|data| - 1], m) + [Point(data[|data| - 1].date, Measure(m, data[|data| - 1]))]
  }

  /** `generateWorkerEfficiencyData`: output per worker by date. */
  function GenerateWorkerEfficiencyData(data: seq<Record>): (r: seq<Point>)
    ensures |r| == |data|
    ensures forall i :: 0 <= i < |data| ==> r[i].date == data[i].date && r[i].value == OutputPerWorker(data[i])
  {
    Series(data, OutputPerWorkerMetric)
  }

  /** `generateQualityMetricsData`: defect rate by date. */
  function GenerateQualityMetricsData(data: seq<Record>): (r: seq<Point>)
    ensures |r| == |data|
    ensures forall i :: 0 <= i < |data| ==> r[i].date == data[i].date && r[i].value == DefectRate(data[i])
  {
    Series(data, DefectRateMetric)
  }

  /** `generateEfficiencyData`: efficiency by date. */
  function GenerateEfficiencyData(data: seq<Record>): (r: seq<Point>)
    ensures |r| == |data|
    ensures forall i :: 0 <= i < |data| ==> r[i].date == data[i].date && r[i].value == Efficiency(data[i])
  {
    Series(data, EfficiencyMetric)
  }

  /** The arithmetic mean of a metric over a collection, 0 for the empty collection. */
  function Average(data: seq<Record>, m: Metric): (a: real)
    ensures |data| == 0 ==> a == 0.0
    ensures |data| == 1 ==> a == Measure(m, data[0])
    ensures |data| > 0 ==> a * |data| as real == SumOf(data, MetricOf(m))
  {
    if |data| == 0 then 0.0
    else
      var sum := SumOf(data, MetricOf(m));
      DivideThenMultiply(sum, |data| as real);
      assert |data| == 1 ==> sum == Measure(m, data[0]) by {
        if |data| == 1 {
          SumOfOne(data, MetricOf(m));
        }
      }
      sum / |data| as real
  }

  /** Dividing by a non-zero quantity and multiplying back gives the original value. */
  lemma DivideThenMultiply(x: real, n: real)
    requires n != 0.0
    ensures (x / n) * n == x
  {
  }

  /** `calculateAverageEfficiency`. */
  function AverageEfficiency(data: seq<Record>): (a: real)
    ensures |data| == 0 ==> a == 0.0
    ensures |data| == 1 ==> a == Efficiency(data[0])
    ensures |data| > 0 ==> a * |data| as real == SumOf(data, MetricOf(EfficiencyMetric))
  {
    Average(data, EfficiencyMetric)
  }

  /** `calculateAverageDefectRate`. */
  function AverageDefectRate(data: seq<Record>): (a: real)
    ensures |data| == 0 ==> a == 0.0
    ensures |data| == 1 ==> a == DefectRate(data[0])
    ensures |data| > 0 ==> a * |data| as real == SumOf(data, MetricOf(DefectRateMetric))
  {
    Average(data, DefectRateMetric)
  }

  /** If every record's defect rate is a percentage in [0, 100], so is their average. */
  lemma AverageDefectRateBounded(data: seq<Record>)
    requires forall i :: 0 <= i < |data| ==> 0.0 <= DefectRate(data[i]) <= 100.0
    ensures 0.0 <= AverageDefectRate(data) <= 100.0
  {
    if |data| > 0 {
      SumOfBounds(data, MetricOf(DefectRateMetric), 0.0, 100.0);
    }
  }

  /** Valid records (0 <= defects <= actual) always have an average defect rate in [0, 100]. */
  lemma ValidAverageDefectRateBounded(data: seq<Record>)
    requires AllValid(data)
    ensures 0.0 <= AverageDefectRate(data) <= 100.0
  {
    AverageDefectRateBounded(data);
  }

  /** Averages do not depend on the order of the records. */
  lemma AveragePermutationInvariant(s: seq<Record>, t: seq<Record>, m: Metric)
    requires multiset(s) == multiset(t)
    ensures Average(s, m) == Average(t, m)
  {
    SumOfPermutation(s, t, MetricOf(m));
    assert |s| == |multiset(s)| == |multiset(t)| == |t|;
  }

  /** The mean of the plotted values of a series. */
  function MeanOfPoints(points: seq<Point>): real {
    if |points| == 0 then 0.0 else SumOf(points, PointValue) / |points| as real
  }

  lemma {:induction false} SeriesSum(data: seq<Record>, m: Metric)
    ensures SumOf(Series(data, m), PointValue) == SumOf(data, MetricOf(m))
    decreases |data|
  {
    if |data| > 0 {
      var s := Series(data, m);
      assert s[..|s| - 1] == Series(data[..|data| - 1], m);
      SeriesSum(data[..|data| - 1], m);
    }
  }

  /** The average of a metric is the mean of the values its chart series plots. */
  lemma AverageIsMeanOfSeries(data: seq<Record>, m: Metric)
    ensures Average(data, m) == MeanOfPoints(Series(data, m))
  {
    SeriesSum(data, m);
  }

  /** The worked example of a planned-100, actual-80 record with 4 defects, 8 hours and 2 workers. */
  lemma WorkedExample()
    ensures var r := Record("1", 0, "P", "P", "C", "C", Some(100), 80, 4, 480, 8.0, 2, "W", "");
      && Efficiency(r) == 80.0 && DefectRate(r) == 5.0
      && Productivity(r) == 10.0 && OutputPerWorker(r) == 40.0
  {
  }
}
