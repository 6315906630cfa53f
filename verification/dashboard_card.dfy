/**
  A summary card of the dashboard: its colour classes, chosen by a colour key
  with a fallback, and the trend row, whose arrow and colour follow the sign
  of the trend and whose figure is the trend's magnitude.
 */
module DashboardCard {
  import opened Wrappers

  /** The colour key the card falls back to and that an absent key defaults to. */
  const DefaultColor := "blue"

  /** `colorClasses`: the five known colour keys and their classes. */
  const ColorClasses: map<string, string> := map[
    "blue" := "bg-blue-100 border-blue-200 text-blue-800",
    "green" := "bg-green-100 border-green-200 text-green-800",
    "red" := "bg-red-100 border-red-200 text-red-800",
    "yellow" := "bg-yellow-100 border-yellow-200 text-yellow-800",
    "purple" := "bg-purple-100 border-purple-200 text-purple-800"]

  /**
    `selectedColor`: the classes of the colour key, an absent key meaning
    blue and an unknown key falling back to the blue classes.
   */
  function SelectedClasses(color: Option<string>): (c: string)
    ensures c in ColorClasses.Values
    ensures color.Some? && color.value in ColorClasses ==> c == ColorClasses[color.value]
    ensures color.None? || color.value !in ColorClasses ==> c == ColorClasses[DefaultColor]
  {
    var key := color.GetOr(DefaultColor);
    if key in ColorClasses then ColorClasses[key] else ColorClasses[DefaultColor]
  }

  /** The classes shown identify the known colour key that chose them. */
  lemma SelectedClassesIdentifyKey(a: string, b: string)
    requires a in ColorClasses && b in ColorClasses
    ensures SelectedClasses(Some(a)) == SelectedClasses(Some(b)) <==> a == b
  {
    var ca, cb := ColorClasses[a], ColorClasses[b];
    if a != b {
      assert ca[3] != cb[3] || ca[4] != cb[4];
    }
  }

  /** Where a trend points: `trend && trend > 0` and `trend && trend < 0`, zero and absent being flat. */
  datatype Tendency = Up | Down | Flat

  function TendencyOf(trend: Option<real>): (d: Tendency)
    ensures d == Up <==> trend.Some? && trend.value > 0.0
    ensures d == Down <==> trend.Some? && trend.value < 0.0
    ensures d == Flat <==> trend.None? || trend.value == 0.0
  {
    if trend.Some? && trend.value != 0.0 && trend.value > 0.0 then Up
    else if trend.Some? && trend.value != 0.0 && trend.value < 0.0 then Down
    else Flat
  }

  /** `trendColor`: green when rising, red when falling, gray otherwise. */
  function TrendColor(trend: Option<real>): (c: string)
    ensures c == "text-green-600" <==> trend.Some? && trend.value > 0.0
    ensures c == "text-red-600" <==> trend.Some? && trend.value < 0.0
    ensures c == "text-gray-600" <==> trend.None? || trend.value == 0.0
  {
    match TendencyOf(trend)
    case Up => "text-green-600"
    case Down => "text-red-600"
    case Flat => "text-gray-600"
  }

  /** `trendIcon`: an up arrow when rising, a down arrow when falling, a right arrow otherwise. */
  function TrendIcon(trend: Option<real>): (i: string)
    ensures i == "↑" <==> trend.Some? && trend.value > 0.0
    ensures i == "↓" <==> trend.Some? && trend.value < 0.0
    ensures i == "→" <==> trend.None? || trend.value == 0.0
  {
    match TendencyOf(trend)
    case Up => "↑"
    case Down => "↓"
    case Flat => "→"
  }

  /** The arrow and the colour always tell the same story. */
  lemma IconMatchesColor(trend: Option<real>)
    ensures TrendIcon(trend) == "↑" <==> TrendColor(trend) == "text-green-600"
    ensures TrendIcon(trend) == "↓" <==> TrendColor(trend) == "text-red-600"
    ensures TrendIcon(trend) == "→" <==> TrendColor(trend) == "text-gray-600"
  {
  }

  /** The trend row: present only for a defined trend, showing `Math.abs(trend)`. */
  function TrendBadge(trend: Option<real>): (m: Option<real>)
    ensures m.Some? <==> trend.Some?
    ensures m.Some? ==> m.value >= 0.0 && (m.value == trend.value || m.value == -trend.value)
  {
    match trend
    case None => None
    case Some(t) => Some(if t < 0.0 then -t else t)
  }

  /** The sign an arrow stands for. */
  function ArrowSign(icon: string): real {
    if icon == "↑" then 1.0 else if icon == "↓" then -1.0 else 0.0
  }

  /** The arrow and the figure of a trend row together give back the trend. */
  lemma BadgeRecoversTrend(trend: Option<real>)
    requires trend.Some?
    ensures ArrowSign(TrendIcon(trend)) * TrendBadge(trend).value == trend.value
  {
  }
}
