/**
  The colour buckets of the detail dialog: efficiency and defect rate are
  each shown green, yellow or red by fixed thresholds.
 */
module DetailModal {
  import opened Types
  import opened Metrics

  /** The three severities, from best to worst. */
  datatype Tone = Green | Yellow | Red

  /** The text class of a tone. */
  function ToneClass(t: Tone): string {
    match t
    case Green => "text-green-500"
    case Yellow => "text-yellow-500"
    case Red => "text-red-500"
  }

  /** Distinct tones have distinct classes, so a class names its tone. */
  lemma ToneClassInjective(a: Tone, b: Tone)
    ensures ToneClass(a) == ToneClass(b) <==> a == b
  {
    if a != b {
      assert ToneClass(a)[5] != ToneClass(b)[5];
    }
  }

  /** The position of a tone from best (0) to worst (2). */
  function Rank(t: Tone): nat {
    match t
    case Green => 0
    case Yellow => 1
    case Red => 2
  }

  /** `getEfficiencyColor`: at least 90 is green, at least 70 yellow, below 70 red. */
  function EfficiencyColor(value: real): (t: Tone)
    ensures t == Green <==> value >= 90.0
    ensures t == Yellow <==> 70.0 <= value < 90.0
    ensures t == Red <==> value < 70.0
  {
    if value >= 90.0 then Green else if value >= 70.0 then Yellow else Red
  }

  /** `getDefectRateColor`: at most 3 is green, at most 8 yellow, above 8 red. */
  function DefectRateColor(value: real): (t: Tone)
    ensures t == Green <==> value <= 3.0
    ensures t == Yellow <==> 3.0 < value <= 8.0
    ensures t == Red <==> value > 8.0
  {
    if value <= 3.0 then Green else if value <= 8.0 then Yellow else Red
  }

  /** A higher efficiency never gets a worse bucket. */
  lemma EfficiencyColorMonotone(v: real, w: real)
    requires v <= w
    ensures Rank(EfficiencyColor(w)) <= Rank(EfficiencyColor(v))
  {
  }

  /** A higher defect rate never gets a better bucket. */
  lemma DefectRateColorMonotone(v: real, w: real)
    requires v <= w
    ensures Rank(DefectRateColor(v)) <= Rank(DefectRateColor(w))
  {
  }

  /** Multiplying by a positive factor keeps the order. */
  lemma ScaleCompare(x: real, y: real, p: real)
    requires p > 0.0
    ensures x <= y <==> x * p <= y * p
  {
    if x <= y {
      assert (y - x) * p >= 0.0;
    } else {
      assert (x - y) * p > 0.0;
    }
  }

  /** A percentage `d` of `a` equal to `100 x` is at most `c` exactly when `100 x` is at most `c` times `a`. */
  lemma PercentageAtMost(d: real, a: real, x: real, c: real)
    requires a > 0.0 && d * a == 100.0 * x
    ensures d <= c <==> 100.0 * x <= c * a
  {
    ScaleCompare(d, c, a);
  }

  /** A record that meets a positive plan shows a green efficiency. */
  lemma MeetingPlanIsGreen(r: Record)
    requires PlannedOrZero(r) > 0 && r.actualQuantity >= PlannedOrZero(r)
    ensures EfficiencyColor(Efficiency(r)) == Green
  {
    var e, p := Efficiency(r), PlannedOrZero(r) as real;
    assert e * p == 100.0 * r.actualQuantity as real;
    ScaleCompare(100.0, e, p);
  }

  /** A record with no defects shows a green defect rate. */
  lemma NoDefectsIsGreen(r: Record)
    requires r.defectCount == 0
    ensures DefectRateColor(DefectRate(r)) == Green
  {
  }

  /**
    A record with positive output is green exactly when at most 3 in 100 units
    are defective, and red exactly when more than 8 in 100 are.
   */
  lemma DefectRateColorOfRecord(r: Record)
    requires r.actualQuantity > 0
    ensures DefectRateColor(DefectRate(r)) == Green <==> 100 * r.defectCount <= 3 * r.actualQuantity
    ensures DefectRateColor(DefectRate(r)) == Red <==> 100 * r.defectCount > 8 * r.actualQuantity
  {
    var d, a, x := DefectRate(r), r.actualQuantity as real, r.defectCount as real;
    PercentageAtMost(d, a, x, 3.0);
    PercentageAtMost(d, a, x, 8.0);
    assert (100 * r.defectCount) as real == 100.0 * x;
    assert (3 * r.actualQuantity) as real == 3.0 * a && (8 * r.actualQuantity) as real == 8.0 * a;
  }
}
