/**
  The dashboard page: the filtered record list produced by the search box and
  the date range, the ten most recent records that feed the charts, the
  totals, the guarded summary ratios and the trend percentages on the cards.
 */
module Dashboard {
  import opened Wrappers
  import opened Types
  import opened Seqs
  import opened Text
  import opened Ordering
  import opened Metrics
  import ProjectStore

  /** How many records the charts show. */
  const RecentCount := 10

  /** The date as a sort key. */
  function DateKey(): Record -> Key {
    (r: Record) => IntKey(r.date)
  }

  /**
    `getRecentData`: a copy of the filtered list sorted newest first (ties keep
    their order) and cut to its first ten records.
   */
  function RecentData(filtered: seq<Record>): (r: seq<Record>)
    ensures |filtered| == 0 ==> r == []
    ensures |r| == if |filtered| < RecentCount then |filtered| else RecentCount
    ensures forall i, j :: 0 <= i < j < |r| ==> r[i].date >= r[j].date
    ensures multiset(r) <= multiset(filtered)
    ensures |filtered| <= RecentCount ==> multiset(r) == multiset(filtered)
    ensures forall x, i :: x in multiset(filtered) - multiset(r) && 0 <= i < |r| ==> x.date <= r[i].date
    ensures forall d :: WithKey(r, DateKey(), IntKey(d)) <= WithKey(filtered, DateKey(), IntKey(d))
  {
    if |filtered| == 0 then []
    else
      var m := if |filtered| < RecentCount then |filtered| else RecentCount;
      RecentPrefix(filtered, m);
      RecentTies(filtered, m);
      Sort(filtered, DateKey(), Desc)[..m]
  }

  /**
    Cutting the newest-first copy keeps ties in order: the kept records of
    any one date are the first of that date's records in the input.
   */
  lemma RecentTies(filtered: seq<Record>, m: nat)
    requires m <= |filtered|
    ensures forall d ::
      WithKey(Sort(filtered, DateKey(), Desc)[..m], DateKey(), IntKey(d)) <= WithKey(filtered, DateKey(), IntKey(d))
  {
    var s := Sort(filtered, DateKey(), Desc);
    forall d ensures WithKey(s[..m], DateKey(), IntKey(d)) <= WithKey(filtered, DateKey(), IntKey(d)) {
      FilterOfPrefix(s, m, HasKey(DateKey(), IntKey(d)));
      SortStable(filtered, DateKey(), Desc, IntKey(d));
    }
  }

  /** The first `m` records of the newest-first copy of a list, as `RecentData` promises them. */
  lemma RecentPrefix(filtered: seq<Record>, m: nat)
    requires m <= |filtered|
    ensures var r := Sort(filtered, DateKey(), Desc)[..m];
      && (forall i, j :: 0 <= i < j < |r| ==> r[i].date >= r[j].date)
      && multiset(r) <= multiset(filtered)
      && (m == |filtered| ==> multiset(r) == multiset(filtered))
      && (forall x, i :: x in multiset(filtered) - multiset(r) && 0 <= i < |r| ==> x.date <= r[i].date)
  {
    SortSorted(filtered, DateKey(), Desc);
    NewestPrefix(Sort(filtered, DateKey(), Desc), m, filtered);
  }

  /**
    The first `m` records of a newest-first arrangement of `whole` are newest
    first, and none left behind is newer.
   */
  lemma NewestPrefix(sorted: seq<Record>, m: nat, whole: seq<Record>)
    requires m <= |sorted|
    requires SortedBy(sorted, DateKey(), Desc)
    requires multiset(sorted) == multiset(whole)
    ensures var r := sorted[..m];
      && (forall i, j :: 0 <= i < j < |r| ==> r[i].date >= r[j].date)
      && multiset(r) <= multiset(whole)
      && (m == |whole| ==> multiset(r) == multiset(whole))
      && (forall x, i :: x in multiset(whole) - multiset(r) && 0 <= i < |r| ==> x.date <= r[i].date)
  {
    var r := sorted[..m];
    forall i, j | 0 <= i < j < |r| ensures r[i].date >= r[j].date {
      assert !Precedes(DateKey()(sorted[j]), DateKey()(sorted[i]), Desc);
    }
    assert sorted == r + sorted[m..];
    assert multiset(sorted) == multiset(r) + multiset(sorted[m..]);
    forall x, i | x in multiset(whole) - multiset(r) && 0 <= i < |r|
      ensures x.date <= r[i].date
    {
      assert x in multiset(sorted[m..]);
      var k :| 0 <= k < |sorted[m..]| && sorted[m..][k] == x;
      assert sorted[m + k] == x;
      assert !Precedes(DateKey()(sorted[m + k]), DateKey()(sorted[i]), Desc);
    }
    if m == |whole| {
      assert r == sorted;
    }
  }

  /** `handleSearch`: a blank term restores every record; otherwise a case-insensitive product-id search. */
  function HandleSearch(productionData: seq<Record>, term: string): (r: seq<Record>)
    ensures IsBlank(term) ==> r == productionData
    ensures !IsBlank(term) ==>
      && (forall i :: 0 <= i < |r| ==> r[i] in productionData && ContainsIgnoringCase(r[i].productId, term))
      && (forall i :: 0 <= i < |productionData| && ContainsIgnoringCase(productionData[i].productId, term) ==>
            productionData[i] in r)
  {
    if IsBlank(term) then productionData
    else Filter(productionData, (item: Record) => ContainsIgnoringCase(item.productId, term))
  }

  /** A non-blank search is the store's product-id search with the untrimmed term. */
  lemma SearchIsStoreSearch(productionData: seq<Record>, term: string)
    ensures !IsBlank(term) ==> HandleSearch(productionData, term) == ProjectStore.FilterByProductName(productionData, term)
  {
    FilterExtensional(productionData, (item: Record) => ContainsIgnoringCase(item.productId, term),
      ProjectStore.ProductIdMatches(term));
  }

  /**
    `handleDateRangeChange` on day numbers (an empty date input is `None`):
    no bound restores every record; otherwise the inclusive one- or two-sided
    filter, the end bound counting through the end of its day.
   */
  function HandleDateRange(productionData: seq<Record>, start: Option<Day>, end: Option<Day>): (r: seq<Record>)
    ensures start.None? && end.None? ==> r == productionData
    ensures forall i :: 0 <= i < |r| ==>
      r[i] in productionData && (start.Some? ==> start.value <= r[i].date) && (end.Some? ==> r[i].date <= end.value)
    ensures forall i :: 0 <= i < |productionData| ==>
      (start.Some? ==> start.value <= productionData[i].date) && (end.Some? ==> productionData[i].date <= end.value) ==>
      productionData[i] in r
  {
    if start.None? && end.None? then productionData
    else Filter(productionData, ProjectStore.InDateRange(start, end))
  }

  /** The page's date handler and the store's date filter select the same records. */
  lemma DateRangeIsStoreFilter(productionData: seq<Record>, start: Option<Day>, end: Option<Day>)
    ensures HandleDateRange(productionData, start, end) == ProjectStore.FilterByDateRange(productionData, start, end)
  {
  }

  /** The four totals of the summary panel. */
  datatype Totals = Totals(planned: int, actual: int, defects: int, hours: real)

  function Plus(a: Totals, b: Totals): Totals {
    Totals(a.planned + b.planned, a.actual + b.actual, a.defects + b.defects, a.hours + b.hours)
  }

  function PlannedTerm(): Record -> int { (r: Record) => PlannedOrZero(r) }
  function ActualTerm(): Record -> int { (r: Record) => r.actualQuantity }
  function DefectsTerm(): Record -> int { (r: Record) => r.defectCount }
  function HoursTerm(): Record -> real { (r: Record) => r.workMinutes as real / 60.0 }

  /**
    `totalPlanned`, `totalActual`, `totalDefects` and `totalHours`: sums over
    the filtered records, a missing planned quantity counting 0 and the hours
    being minutes over 60. On valid records every total is non-negative and
    the defects never exceed the output.
   */
  function ComputeTotals(data: seq<Record>): (t: Totals)
    ensures AllValid(data) ==> t.planned >= 0 && t.actual >= 0 && t.defects >= 0 && t.hours >= 0.0
    ensures AllValid(data) ==> t.defects <= t.actual
  {
    var t := Totals(IntSumOf(data, PlannedTerm()), IntSumOf(data, ActualTerm()),
                    IntSumOf(data, DefectsTerm()), SumOf(data, HoursTerm()));
    if AllValid(data) then
      IntSumOfNonNegative(data, PlannedTerm());
      IntSumOfNonNegative(data, ActualTerm());
      IntSumOfNonNegative(data, DefectsTerm());
      SumOfNonNegative(data, HoursTerm());
      IntSumOfMonotone(data, DefectsTerm(), ActualTerm());
      t
    else t
  }

  /** The totals of no records are zero. */
  lemma TotalsOfEmpty()
    ensures ComputeTotals([]) == Totals(0, 0, 0, 0.0)
  {
  }

  /** One record contributes its planned quantity or 0, its output, its defects and its minutes over 60. */
  lemma TotalsOfOne(r: Record)
    ensures ComputeTotals([r]) == Totals(PlannedOrZero(r), r.actualQuantity, r.defectCount, r.workMinutes as real / 60.0)
  {
    assert [r][..0] == [];
    assert IntSumOf([r], PlannedTerm()) == PlannedOrZero(r);
    assert IntSumOf([r], ActualTerm()) == r.actualQuantity;
    assert IntSumOf([r], DefectsTerm()) == r.defectCount;
    assert SumOf([r], HoursTerm()) == r.workMinutes as real / 60.0;
  }

  /** Totals add up over a split of the records. */
  lemma TotalsConcat(a: seq<Record>, b: seq<Record>)
    ensures ComputeTotals(a + b) == Plus(ComputeTotals(a), ComputeTotals(b))
  {
    IntSumOfConcat(a, b, PlannedTerm());
    IntSumOfConcat(a, b, ActualTerm());
    IntSumOfConcat(a, b, DefectsTerm());
    SumOfConcat(a, b, HoursTerm());
  }

  /** The achievement rate (`達成率`): output as a percentage of the plan, 0 without a positive plan. */
  function AchievementRate(t: Totals): (a: real)
    ensures t.planned <= 0 ==> a == 0.0
    ensures t.planned > 0 ==> a * t.planned as real == 100.0 * t.actual as real
  {
    if t.planned > 0 then (t.actual as real / t.planned as real) * 100.0 else 0.0
  }

  /** The summary productivity (`生産性`): output per hour, 0 without positive hours. */
  function SummaryProductivity(t: Totals): (p: real)
    ensures t.hours <= 0.0 ==> p == 0.0
    ensures t.hours > 0.0 ==> p * t.hours == t.actual as real
  {
    if t.hours > 0.0 then t.actual as real / t.hours else 0.0
  }

  /** The summary defect rate (`不良率`): defects as a percentage of output, 0 without output. */
  function SummaryDefectRate(t: Totals): (d: real)
    ensures t.actual <= 0 ==> d == 0.0
    ensures t.actual > 0 ==> d * t.actual as real == 100.0 * t.defects as real
    ensures 0 <= t.defects <= t.actual ==> 0.0 <= d <= 100.0
  {
    if t.actual > 0 then
      assert t.defects <= t.actual ==> t.defects as real / t.actual as real <= 1.0;
      (t.defects as real / t.actual as real) * 100.0
    else 0.0
  }

  /** On valid records the summary defect rate is a percentage. */
  lemma SummaryDefectRateBounded(data: seq<Record>)
    requires AllValid(data)
    ensures 0.0 <= SummaryDefectRate(ComputeTotals(data)) <= 100.0
  {
  }

  /**
    On a single record the summary agrees with the per-record metrics: the
    achievement rate is its efficiency, the defect rate its defect rate, and,
    when its hours are its minutes over 60, the productivity its productivity.
   */
  lemma SummaryOfOneRecord(r: Record)
    requires ValidRecord(r)
    ensures AchievementRate(ComputeTotals([r])) == Efficiency(r)
    ensures SummaryDefectRate(ComputeTotals([r])) == DefectRate(r)
    ensures r.workHours == r.workMinutes as real / 60.0 ==>
      SummaryProductivity(ComputeTotals([r])) == Productivity(r)
  {
    TotalsOfOne(r);
  }

  /**
    The trend on a card: the relative change of the recent average against the
    overall average in percent, 0 unless the overall average is positive.
   */
  function Trend(recent: real, overall: real): (t: real)
    ensures overall <= 0.0 ==> t == 0.0
    ensures overall > 0.0 ==> overall + t * overall / 100.0 == recent
    ensures overall > 0.0 ==> (t > 0.0 <==> recent > overall) && (t < 0.0 <==> recent < overall)
  {
    if overall > 0.0 then ((recent - overall) / overall) * 100.0 else 0.0
  }

  /** `efficiencyTrend`: the recent average efficiency against the filtered average. */
  function EfficiencyTrend(filtered: seq<Record>): real {
    Trend(AverageEfficiency(RecentData(filtered)), AverageEfficiency(filtered))
  }

  /** `defectRateTrend`: the recent average defect rate against the filtered average. */
  function DefectRateTrend(filtered: seq<Record>): real {
    Trend(AverageDefectRate(RecentData(filtered)), AverageDefectRate(filtered))
  }

  /** With at most ten records the recent ones are all of them, so both trends are flat. */
  lemma FewRecordsHaveNoTrend(filtered: seq<Record>)
    requires |filtered| <= RecentCount
    ensures EfficiencyTrend(filtered) == 0.0
    ensures DefectRateTrend(filtered) == 0.0
  {
    AveragePermutationInvariant(RecentData(filtered), filtered, EfficiencyMetric);
    AveragePermutationInvariant(RecentData(filtered), filtered, DefectRateMetric);
  }
}
