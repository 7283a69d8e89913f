/**
 * The sales dashboard: choosing the insight for the active tab, shaping its
 * charts into the four series the page draws (sales over time, sales by
 * category, top menu items, the hourly heat map), the summary figures, and
 * the tab and fetch state. Amounts are whole numbers; the date and currency
 * formatting is not modelled.
 */
module RestaurantDashboard {
  import opened Common
  import Sorting

  datatype TimeRange = Weekly | Monthly

  /** One `key: amount` member of an object-valued chart point. */
  datatype Entry = Entry(key: string, amount: int)

  /** A chart point's `value`: a number, an object, or absent. */
  datatype ChartValue = NumberV(n: int) | ObjectV(entries: seq<Entry>) | NoValue

  datatype ChartPoint = ChartPoint(category: Option<string>, value: ChartValue, labelText: Option<string>, timestamp: int)

  datatype Graph = Graph(title: string, chartData: seq<ChartPoint>)

  datatype Insight = Insight(typeDashboard: TimeRange, graphs: seq<Graph>)

  datatype SalesPoint = SalesPoint(sales: int, timestamp: int)

  datatype CategoryEntry = CategoryEntry(name: Option<string>, value: int)

  /** One heat-map row: the hour, its `H:00` label, and the amounts for Monday … Sunday. */
  datatype HourRow = HourRow(hour: nat, hourLabel: string, byDay: seq<int>)

  datatype Processed = Processed(
    salesOverTime: seq<SalesPoint>, categoryData: seq<CategoryEntry>,
    topMenuItems: seq<Entry>, hourlyData: seq<HourRow>)

  const Days: seq<string> := ["Monday", "Tuesday", "Wednesday", "Thursday", "Friday", "Saturday", "Sunday"]
  const FirstHour: nat := 7
  const HourCount: nat := 15
  const TopCount: nat := 10

  const NoSeries: Processed := Processed([], [], [], [])

  // ---------------------------------------------------------------------------
  // Choosing the data
  // ---------------------------------------------------------------------------

  function OfType(tab: TimeRange): Insight -> bool {
    (d: Insight) => d.typeDashboard == tab
  }

  /** `getCurrentDashboard`: the first insight of the active tab's type. */
  function CurrentDashboard(data: seq<Insight>, tab: TimeRange): (r: Option<Insight>)
    ensures r.None? <==> forall i :: 0 <= i < |data| ==> data[i].typeDashboard != tab
    ensures r.Some? ==> r.value in data && r.value.typeDashboard == tab
    ensures r.Some? ==> exists i :: 0 <= i < |data| && data[i] == r.value &&
                                    forall j :: 0 <= j < i ==> data[j].typeDashboard != tab
  {
    FindFirst(data, OfType(tab))
  }

  /** `title` contains one of the needles. */
  predicate MentionsAny(title: string, needles: seq<string>) {
    exists k :: 0 <= k < |needles| && Includes(title, needles[k])
  }

  function TitleHasAny(needles: seq<string>): Graph -> bool {
    (g: Graph) => MentionsAny(g.title, needles)
  }

  /** The first graph whose title contains one of the needles. */
  function FindGraph(graphs: seq<Graph>, needles: seq<string>): (r: Option<Graph>)
    ensures r.Some? ==> r.value in graphs && MentionsAny(r.value.title, needles)
    ensures r.None? ==> forall i, k :: 0 <= i < |graphs| && 0 <= k < |needles| ==> !Includes(graphs[i].title, needles[k])
    ensures r.Some? ==> exists i :: 0 <= i < |graphs| && graphs[i] == r.value &&
                                    forall j :: 0 <= j < i ==> !MentionsAny(graphs[j].title, needles)
  {
    FindFirst(graphs, TitleHasAny(needles))
  }

  // ---------------------------------------------------------------------------
  // Sales over time
  // ---------------------------------------------------------------------------

  /** `item.value as number`, read as 0 when the value is not a number. */
  function SalesAmount(v: ChartValue): int {
    if v.NumberV? then v.n else 0
  }

  function Timestamp(p: SalesPoint): int {
    p.timestamp
  }

  function Sales(p: SalesPoint): int {
    p.sales
  }

  function ToSalesPoints(points: seq<ChartPoint>): (r: seq<SalesPoint>)
    ensures |r| == |points|
    ensures forall i :: 0 <= i < |r| ==> r[i] == SalesPoint(SalesAmount(points[i].value), points[i].timestamp)
  {
    seq(|points|, i requires 0 <= i < |points| => SalesPoint(SalesAmount(points[i].value), points[i].timestamp))
  }

  /** The sales series: every point of the chart, reordered by ascending timestamp; empty without a chart. */
  function SalesSeries(chart: Option<Graph>): (r: seq<SalesPoint>)
    ensures chart.None? ==> r == []
    ensures chart.Some? ==> |r| == |chart.value.chartData|
    ensures chart.Some? ==> multiset(r) == multiset(ToSalesPoints(chart.value.chartData))
    ensures forall i, j :: 0 <= i < j < |r| ==> r[i].timestamp <= r[j].timestamp
  {
    match chart
    case None => []
    case Some(g) =>
      var r := Sorting.SortBy(ToSalesPoints(g.chartData), Timestamp);
      assert forall i, j :: 0 <= i < j < |r| ==> Timestamp(r[i]) <= Timestamp(r[j]);
      r
  }

  /** Chart data that is already in time order is drawn in that order. */
  lemma SalesSeriesKeepsOrderedData(g: Graph)
    requires forall i, j :: 0 <= i < j < |g.chartData| ==> g.chartData[i].timestamp <= g.chartData[j].timestamp
    ensures SalesSeries(Some(g)) == ToSalesPoints(g.chartData)
  {
    var s := ToSalesPoints(g.chartData);
    assert Sorting.SortedBy(s, Timestamp);
    Sorting.SortBySorted(s, Timestamp);
  }

  // ---------------------------------------------------------------------------
  // Sales by category
  // ---------------------------------------------------------------------------

  /** `item.category || item.label`: an empty or missing category falls back to the label. */
  function EntryName(p: ChartPoint): (r: Option<string>)
    ensures p.category.Some? && p.category.value != "" ==> r == p.category
    ensures !(p.category.Some? && p.category.value != "") ==> r == p.labelText
  {
    if p.category.Some? && p.category.value != "" then p.category else p.labelText
  }

  /** The category series: one entry per chart point, in chart order; empty without a chart. */
  function CategorySeries(chart: Option<Graph>): (r: seq<CategoryEntry>)
    ensures chart.None? ==> r == []
    ensures chart.Some? ==> |r| == |chart.value.chartData|
    ensures chart.Some? ==> forall i :: 0 <= i < |r| ==>
              r[i] == CategoryEntry(EntryName(chart.value.chartData[i]), SalesAmount(chart.value.chartData[i].value))
  {
    match chart
    case None => []
    case Some(g) =>
      seq(|g.chartData|, i requires 0 <= i < |g.chartData| =>
        CategoryEntry(EntryName(g.chartData[i]), SalesAmount(g.chartData[i].value)))
  }

  /**
   * Entry `k` of the category series describes point `k` of the chart: it is
   * named by the point's category when that is a non-empty string and by its
   * label otherwise, and it carries the point's amount (0 unless numeric).
   */
  lemma CategorySeriesEntry(g: Graph, k: nat)
    requires k < |g.chartData|
    ensures var e := CategorySeries(Some(g))[k];
            var p := g.chartData[k];
            && (p.category.Some? && p.category.value != "" ==> e.name == p.category)
            && (p.category.None? || p.category == Some("") ==> e.name == p.labelText)
            && (p.value.NumberV? ==> e.value == p.value.n)
            && (!p.value.NumberV? ==> e.value == 0)
  {
    var p := g.chartData[k];
    assert CategorySeries(Some(g))[k] == CategoryEntry(EntryName(p), SalesAmount(p.value));
  }

  // ---------------------------------------------------------------------------
  // Top menu items
  // ---------------------------------------------------------------------------

  predicate IsTopTen(p: ChartPoint) {
    p.category == Some("top_10") || p.labelText == Some("top_10")
  }

  /**
   * The top items: the entries of the first `top_10` point, at most ten of
   * them and in their order; empty without a chart, without such a point, or
   * when its value is not an object.
   */
  function TopMenuItems(chart: Option<Graph>): (r: seq<Entry>)
    ensures |r| <= TopCount
    ensures chart.None? ==> r == []
    ensures chart.Some? ==>
              match FindFirst(chart.value.chartData, IsTopTen)
              case None => r == []
              case Some(p) =>
                && (p.value.ObjectV? ==> |r| == Min(TopCount, |p.value.entries|) && r == p.value.entries[..|r|])
                && (!p.value.ObjectV? ==> r == [])
  {
    match chart
    case None => []
    case Some(g) =>
      match FindFirst(g.chartData, IsTopTen)
      case None => []
      case Some(p) =>
        if p.value.ObjectV? then p.value.entries[..Min(TopCount, |p.value.entries|)] else []
  }

  function Min(a: nat, b: nat): nat {
    if a <= b then a else b
  }

  /** The best seller shown in the summary: the first top item, if any. */
  function TopSellingItem(items: seq<Entry>): (r: Option<Entry>)
    ensures r.None? <==> items == []
    ensures r.Some? ==> r.value == items[0]
  {
    if |items| > 0 then Some(items[0]) else None
  }

  /** With ten or fewer entries, every entry is listed. */
  lemma FewTopItemsAllShown(g: Graph, i: nat)
    requires i < |g.chartData| && IsTopTen(g.chartData[i])
    requires forall j :: 0 <= j < i ==> !IsTopTen(g.chartData[j])
    requires g.chartData[i].value.ObjectV? && |g.chartData[i].value.entries| <= TopCount
    ensures TopMenuItems(Some(g)) == g.chartData[i].value.entries
  {
    FindFirstAt(g.chartData, IsTopTen, i);
  }

  // ---------------------------------------------------------------------------
  // Hourly heat map
  // ---------------------------------------------------------------------------

  function KeyIs(day: string): Entry -> bool {
    (e: Entry) => e.key == day
  }

  function CategoryIs(c: string): ChartPoint -> bool {
    (p: ChartPoint) => p.category == Some(c)
  }

  /** `value[day] || 0`. */
  function DayAmount(entries: seq<Entry>, day: string): (r: int)
    ensures (forall i :: 0 <= i < |entries| ==> entries[i].key != day) ==> r == 0
    ensures r != 0 ==> exists i :: 0 <= i < |entries| && entries[i].key == day && entries[i].amount == r
  {
    match FindFirst(entries, KeyIs(day))
    case Some(e) => e.amount
    case None => 0
  }

  /** The amount for one hour and day: read from the first point for that hour when its value is an object, else 0. */
  function HourCell(points: seq<ChartPoint>, hour: nat, day: string): (r: int)
    ensures (forall i :: 0 <= i < |points| ==> points[i].category != Some(NatToString(hour))) ==> r == 0
  {
    match FindFirst(points, CategoryIs(NatToString(hour)))
    case Some(p) => if p.value.ObjectV? then DayAmount(p.value.entries, day) else 0
    case None => 0
  }

  /** The heat map: 15 rows for hours 7 to 21, each with Monday … Sunday; empty without a chart. */
  function HourlyGrid(chart: Option<Graph>): (r: seq<HourRow>)
    ensures chart.None? ==> r == []
    ensures chart.Some? ==> |r| == HourCount
    ensures forall k :: 0 <= k < |r| ==>
              && r[k].hour == FirstHour + k
              && r[k].hourLabel == NatToString(FirstHour + k) + ":00"
              && |r[k].byDay| == |Days|
    ensures chart.Some? ==> forall k, d :: 0 <= k < |r| && 0 <= d < |Days| ==>
              r[k].byDay[d] == HourCell(chart.value.chartData, FirstHour + k, Days[d])
  {
    match chart
    case None => []
    case Some(g) =>
      seq(HourCount, k requires 0 <= k =>
        HourRow(FirstHour + k, NatToString(FirstHour + k) + ":00",
                seq(|Days|, d requires 0 <= d < |Days| => HourCell(g.chartData, FirstHour + k, Days[d]))))
  }

  /** The grid's first and last rows are 7:00 and 21:00. */
  lemma HourlyGridSpan(g: Graph)
    ensures var r := HourlyGrid(Some(g));
            r[0].hour == 7 && r[|r| - 1].hour == 21
  {
  }

  /** An hour with no point of its own is a row of zeros. */
  lemma MissingHourIsZeros(g: Graph, k: nat)
    requires k < HourCount
    requires forall i :: 0 <= i < |g.chartData| ==> g.chartData[i].category != Some(NatToString(FirstHour + k))
    ensures forall d :: 0 <= d < |Days| ==> HourlyGrid(Some(g))[k].byDay[d] == 0
  {
  }

  /** A cell reads the day's amount from the first point for its hour. */
  lemma HourCellReadsPoint(points: seq<ChartPoint>, hour: nat, day: string, i: nat, j: nat)
    requires i < |points| && points[i].category == Some(NatToString(hour))
    requires forall i' :: 0 <= i' < i ==> points[i'].category != Some(NatToString(hour))
    requires points[i].value.ObjectV?
    requires j < |points[i].value.entries| && points[i].value.entries[j].key == day
    requires forall j' :: 0 <= j' < j ==> points[i].value.entries[j'].key != day
    ensures HourCell(points, hour, day) == points[i].value.entries[j].amount
  {
    FindFirstAt(points, CategoryIs(NatToString(hour)), i);
    FindFirstAt(points[i].value.entries, KeyIs(day), j);
  }

  // ---------------------------------------------------------------------------
  // All four series
  // ---------------------------------------------------------------------------

  /** `getProcessedData`: the four series of the active tab's insight; all empty when there is none. */
  function ProcessedData(data: seq<Insight>, tab: TimeRange): (r: Processed)
    ensures CurrentDashboard(data, tab).None? ==> r == NoSeries
    ensures CurrentDashboard(data, tab).Some? ==>
              var graphs := CurrentDashboard(data, tab).value.graphs;
              && r.salesOverTime == SalesSeries(FindGraph(graphs, ["Total Sales Over Time"]))
              && r.categoryData == CategorySeries(FindGraph(graphs, ["Total Sales by Category"]))
              && r.topMenuItems == TopMenuItems(FindGraph(graphs, ["Top Selling Menu Item", "Top Twenty Selling Menu Item"]))
              && r.hourlyData == HourlyGrid(FindGraph(graphs, ["Hourly Sales Heatmap"]))
    ensures |r.topMenuItems| <= TopCount
    ensures r.hourlyData == [] || |r.hourlyData| == HourCount
  {
    match CurrentDashboard(data, tab)
    case None => NoSeries
    case Some(d) =>
      Processed(
        SalesSeries(FindGraph(d.graphs, ["Total Sales Over Time"])),
        CategorySeries(FindGraph(d.graphs, ["Total Sales by Category"])),
        TopMenuItems(FindGraph(d.graphs, ["Top Selling Menu Item", "Top Twenty Selling Menu Item"])),
        HourlyGrid(FindGraph(d.graphs, ["Hourly Sales Heatmap"])))
  }

  // ---------------------------------------------------------------------------
  // Summary figures
  // ---------------------------------------------------------------------------

  /** `totalSales`: the sales of the series added up. */
  function TotalSales(series: seq<SalesPoint>): int {
    Sorting.SumBy(series, Sales)
  }

  /** `averageSale`: the total over the number of points, 0 for an empty series. */
  function AverageSale(series: seq<SalesPoint>): (r: real)
    ensures |series| == 0 ==> r == 0.0
    ensures |series| > 0 ==> r * |series| as real == TotalSales(series) as real
  {
    if |series| == 0 then 0.0 else TotalSales(series) as real / |series| as real
  }

  /** Adding points to a series adds their sales to the total. */
  lemma TotalSalesAppend(a: seq<SalesPoint>, b: seq<SalesPoint>)
    ensures TotalSales(a + b) == TotalSales(a) + TotalSales(b)
  {
    Sorting.SumByAppend(a, b, Sales);
  }

  /**
   * A chart point whose value is not a number (an object, or none) adds
   * nothing to the sales total; a numeric one adds its number.
   */
  lemma PointAddsItsNumber(points: seq<ChartPoint>, p: ChartPoint)
    ensures TotalSales(ToSalesPoints(points + [p])) ==
            TotalSales(ToSalesPoints(points)) + (if p.value.NumberV? then p.value.n else 0)
  {
    assert ToSalesPoints(points + [p]) == ToSalesPoints(points) + [SalesPoint(SalesAmount(p.value), p.timestamp)];
    var last := [SalesPoint(SalesAmount(p.value), p.timestamp)];
    TotalSalesAppend(ToSalesPoints(points), last);
    assert last[1..] == [];
    assert Sorting.SumBy(last, Sales) == Sales(last[0]) + Sorting.SumBy(last[1..], Sales);
  }

  /** The total does not depend on the order: it is the sum over the chart's points as delivered. */
  lemma TotalSalesOfChart(g: Graph)
    ensures TotalSales(SalesSeries(Some(g))) == Sorting.SumBy(ToSalesPoints(g.chartData), Sales)
  {
    Sorting.SumBySortBy(ToSalesPoints(g.chartData), Timestamp, Sales);
  }

  // ---------------------------------------------------------------------------
  // Tabs and fetching
  // ---------------------------------------------------------------------------

  datatype DashState = DashState(
    activeTab: TimeRange, activeIndex: nat, dashboardData: seq<Insight>,
    weeklyData: seq<Insight>, monthlyData: seq<Insight>, loading: bool, error: Option<string>)

  const InitialDash: DashState := DashState(Weekly, 0, [], [], [], true, None)

  function TabName(tab: TimeRange): string {
    match tab
    case Weekly => "weekly"
    case Monthly => "monthly"
  }

  function Cached(st: DashState, tab: TimeRange): seq<Insight> {
    match tab
    case Weekly => st.weeklyData
    case Monthly => st.monthlyData
  }

  /** `handleTabClick`: switch tab, reset the pie slice, and show the tab's cached data when there is some. */
  function TabClick(st: DashState, tab: TimeRange): (r: DashState)
    ensures r.activeTab == tab && r.activeIndex == 0
    ensures |Cached(st, tab)| > 0 ==> r.dashboardData == Cached(st, tab)
    ensures |Cached(st, tab)| == 0 ==> r.dashboardData == st.dashboardData
    ensures r.weeklyData == st.weeklyData && r.monthlyData == st.monthlyData
    ensures r.loading == st.loading && r.error == st.error
  {
    var cached := Cached(st, tab);
    st.(activeTab := tab, activeIndex := 0,
        dashboardData := if |cached| > 0 then cached else st.dashboardData)
  }

  /**
   * What the dashboard request came to: no token, a non-OK response, the
   * decoded results, an `Error` thrown along the way (a rejected `fetch`, an
   * undecodable body) with its message, or a thrown value that is not an
   * `Error`.
   */
  datatype FetchOutcome = NoToken | HttpFailure | Loaded(results: seq<Insight>) | Rejected(message: string) | NonErrorThrown

  /** The start of a fetch: loading, no error. */
  function StartFetch(st: DashState): (r: DashState)
    ensures r.loading && r.error.None?
    ensures r.(loading := st.loading, error := st.error) == st
  {
    st.(loading := true, error := None)
  }

  /** The end of a fetch for `tab`: the results are cached for the tab and shown, or the error is set. */
  function FinishFetch(st: DashState, tab: TimeRange, outcome: FetchOutcome): (r: DashState)
    ensures !r.loading
    ensures r.activeTab == st.activeTab && r.activeIndex == st.activeIndex
    ensures outcome.NoToken? ==> r.error == Some("Authentication token not found")
    ensures outcome.HttpFailure? ==> r.error == Some("Failed to fetch " + TabName(tab) + " dashboard data")
    ensures outcome.Rejected? ==> r.error == Some(outcome.message)
    ensures outcome.NonErrorThrown? ==> r.error == Some("An error occurred")
    ensures outcome.Loaded? ==> r.error == st.error && r.dashboardData == outcome.results
                                && Cached(r, tab) == outcome.results
    ensures !outcome.Loaded? ==> r.dashboardData == st.dashboardData
    ensures tab == Weekly ==> r.monthlyData == st.monthlyData
    ensures tab == Monthly ==> r.weeklyData == st.weeklyData
    ensures !outcome.Loaded? ==> r.weeklyData == st.weeklyData && r.monthlyData == st.monthlyData
  {
    match outcome
    case NoToken => st.(error := Some("Authentication token not found"), loading := false)
    case HttpFailure => st.(error := Some("Failed to fetch " + TabName(tab) + " dashboard data"), loading := false)
    case Rejected(message) => st.(error := Some(message), loading := false)
    case NonErrorThrown => st.(error := Some("An error occurred"), loading := false)
    case Loaded(results) =>
      var cached := if tab == Weekly then st.(weeklyData := results) else st.(monthlyData := results);
      cached.(dashboardData := results, loading := false)
  }

  /** After a tab's data has loaded, leaving the tab and coming back shows that data again. */
  lemma ReturnToLoadedTab(st: DashState, tab: TimeRange, other: TimeRange, results: seq<Insight>)
    requires |results| > 0
    ensures var loaded := FinishFetch(StartFetch(st), tab, Loaded(results));
            TabClick(TabClick(loaded, other), tab).dashboardData == results
  {
  }

  /** A successful fetch for the active tab shows that tab's insight, when the results hold one. */
  lemma LoadedTabShowsItsInsight(st: DashState, results: seq<Insight>, i: nat)
    requires i < |results| && results[i].typeDashboard == st.activeTab
    ensures var loaded := FinishFetch(StartFetch(st), st.activeTab, Loaded(results));
            CurrentDashboard(loaded.dashboardData, loaded.activeTab).Some?
  {
  }
}
