/** The logic of the analytics dashboard component: the region breakdown
    shown in the bar chart, and the two input handlers that feed the store. */
module AnalyticsDashboard {
  import opened Wrappers
  import opened JsArray
  import opened AnalyticsSlice

  /** At most this many regions are charted when no region is selected. */
  const MaxRegionRows: nat := 10

  /** A charted row: the region's entry plus the mean count of all regions. */
  datatype RegionRow = RegionRow(region: string, count: int, average: real)

  function Count(r: RegionCount): int { r.count }

  /** `reduce((acc, curr) => acc + curr.count, 0) / length`, as an exact ratio. */
  function MeanCount(s: seq<RegionCount>): (average: real)
    requires |s| > 0
    ensures average * |s| as real == SumRegions(s) as real
  {
    SumRegions(s) as real / |s| as real
  }

  /** `!selectedRegion`: both `null` and the empty string select no region. */
  predicate NoRegionSelected(selected: Option<string>)
  {
    selected == None || selected == Some("")
  }

  function InRegion(region: string): RegionCount -> bool
  {
    (r: RegionCount) => r.region == region
  }

  /** `[...s].sort((a, b) => b.count - a.count).slice(0, 10)`. */
  function TopRegions(s: seq<RegionCount>): (top: seq<RegionCount>)
    ensures |top| == Min(MaxRegionRows, |s|)
    ensures forall i, j :: 0 <= i < j < |top| ==> top[j].count <= top[i].count
    ensures multiset(top) <= multiset(s)
  {
    var sorted := SortDescBy(s, Count);
    SortedPrefix(sorted, Count, Min(MaxRegionRows, |s|));
    sorted[..Min(MaxRegionRows, |s|)]
  }

  /** Tags every entry with the same average. */
  function Annotate(entries: seq<RegionCount>, average: real): (rows: seq<RegionRow>)
    ensures |rows| == |entries|
    ensures forall i :: 0 <= i < |rows| ==> rows[i] == RegionRow(entries[i].region, entries[i].count, average)
  {
    seq(|entries|, i requires 0 <= i < |entries| => RegionRow(entries[i].region, entries[i].count, average))
  }

  /** The entries a list of rows was made from. */
  function Entries(rows: seq<RegionRow>): (entries: seq<RegionCount>)
    ensures |entries| == |rows|
    ensures forall i :: 0 <= i < |rows| ==> entries[i] == RegionCount(rows[i].region, rows[i].count)
  {
    seq(|rows|, i requires 0 <= i < |rows| => RegionCount(rows[i].region, rows[i].count))
  }

  lemma EntriesOfAnnotate(entries: seq<RegionCount>, average: real)
    ensures Entries(Annotate(entries, average)) == entries
  {
  }

  /** `processRegionData`. With no region selected: the ten largest regions
      by count, largest first. With a region selected: that region's
      entries, in input order. Either way every row carries the mean count
      over the whole input. An empty input gives no rows, so `processRegionData`'s
      `0 / 0` is never shown. */
  function ProcessRegionData(usersByRegion: seq<RegionCount>, selected: Option<string>): (rows: seq<RegionRow>)
    ensures forall i :: 0 <= i < |rows| ==> |usersByRegion| > 0 && rows[i].average == MeanCount(usersByRegion)
    ensures NoRegionSelected(selected) ==> |rows| == Min(MaxRegionRows, |usersByRegion|)
    ensures NoRegionSelected(selected) ==> forall i, j :: 0 <= i < j < |rows| ==> rows[j].count <= rows[i].count
    ensures NoRegionSelected(selected) ==> multiset(Entries(rows)) <= multiset(usersByRegion)
    ensures !NoRegionSelected(selected) ==> Subseq(Entries(rows), usersByRegion)
    ensures !NoRegionSelected(selected) ==>
      forall x :: multiset(Entries(rows))[x] == if x.region == selected.value then multiset(usersByRegion)[x] else 0
  {
    var average := if |usersByRegion| == 0 then 0.0 else MeanCount(usersByRegion);
    var entries :=
      if NoRegionSelected(selected) then TopRegions(usersByRegion)
      else Filter(usersByRegion, InRegion(selected.value));
    EntriesOfAnnotate(entries, average);
    Annotate(entries, average)
  }

  /** In a sequence sorted by descending count, nothing after position `k`
      outranks anything before it. */
  lemma SortedPrefixDominates(sorted: seq<RegionCount>, k: nat)
    requires SortedDescBy(sorted, Count) && k <= |sorted|
    ensures forall y, x :: y in sorted[k..] && x in sorted[..k] ==> y.count <= x.count
  {
    forall y, x | y in sorted[k..] && x in sorted[..k] ensures y.count <= x.count {
      var j :| 0 <= j < |sorted| - k && sorted[k..][j] == y;
      var i :| 0 <= i < k && sorted[..k][i] == x;
      assert Count(sorted[k + j]) <= Count(sorted[i]);
    }
  }

  lemma TopRegionsDominateOmitted(s: seq<RegionCount>)
    ensures var top := TopRegions(s);
      forall y, x :: y in multiset(s) - multiset(top) && x in top ==> y.count <= x.count
  {
    var sorted := SortDescBy(s, Count);
    var top := TopRegions(s);
    var k := |top|;
    var rest := sorted[k..];
    assert top == sorted[..k];
    assert multiset(s) - multiset(top) <= multiset(rest) by {
      assert sorted == top + rest;
      assert multiset(sorted) == multiset(top) + multiset(rest);
    }
    SortedPrefixDominates(sorted, k);
  }

  /** No region left out of the top ten has a larger count than one shown. */
  lemma OmittedRegionsNotLarger(s: seq<RegionCount>)
    ensures var shown := Entries(ProcessRegionData(s, None));
      forall y, x :: y in multiset(s) - multiset(shown) && x in shown ==> y.count <= x.count
  {
    assert Entries(ProcessRegionData(s, None)) == TopRegions(s);
    TopRegionsDominateOmitted(s);
  }

  /** Regions with equal counts are charted in input order: for every count,
      the charted regions with it are the first ones of the input with it. */
  lemma TiesKeepInputOrder(s: seq<RegionCount>, c: int)
    ensures Filter(Entries(ProcessRegionData(s, None)), HasKey(Count, c)) <= Filter(s, HasKey(Count, c))
  {
    var sorted := SortDescBy(s, Count);
    var top := TopRegions(s);
    assert Entries(ProcessRegionData(s, None)) == top;
    FilterPrefix(sorted, |top|, HasKey(Count, c));
    SortStable(s, Count, c);
  }

  /** A selected region with no entry charts nothing; one with an entry
      charts it. */
  lemma SelectedRegionEmptyIff(s: seq<RegionCount>, region: string)
    requires region != ""
    ensures ProcessRegionData(s, Some(region)) == [] <==> forall x :: x in s ==> x.region != region
  {
    var rows := ProcessRegionData(s, Some(region));
    if rows == [] {
      forall x | x in s ensures x.region != region {
        assert multiset(Entries(rows))[x] == 0;
      }
    } else {
      var x := Entries(rows)[0];
      assert multiset(Entries(rows))[x] > 0;
    }
  }

  /** A list already ranked by count, of at most ten regions, is charted
      as it stands. */
  lemma RankedRegionsChartedAsIs(s: seq<RegionCount>)
    requires 0 < |s| <= MaxRegionRows && SortedDescBy(s, Count)
    ensures ProcessRegionData(s, None) == Annotate(s, MeanCount(s))
  {
    SortSortedIsIdentity(s, Count);
  }

  lemma MockRegionsRanked(q: AnalyticsQuery)
    ensures SortedDescBy(MockAnalytics(q).usersByRegion, Count)
  {
    var s := MockAnalytics(q).usersByRegion;
    assert s[0].count == 400 && s[1].count == 300 && s[2].count == 200 && s[3].count == 100;
  }

  /** The mock's four regions average 250 users. */
  lemma MockMeanCount(q: AnalyticsQuery)
    ensures MeanCount(MockAnalytics(q).usersByRegion) == 250.0
  {
  }

  /** With the mock data and no region selected, all four regions are
      charted in their given order, each with average 250. */
  lemma MockAllRegionsBreakdown(q: AnalyticsQuery)
    ensures ProcessRegionData(MockAnalytics(q).usersByRegion, None) == Annotate(MockAnalytics(q).usersByRegion, 250.0)
  {
    MockRegionsRanked(q);
    MockMeanCount(q);
    RankedRegionsChartedAsIs(MockAnalytics(q).usersByRegion);
  }

  /** The mock lists Europe exactly once. */
  lemma MockEuropeEntries(q: AnalyticsQuery)
    ensures Filter(MockAnalytics(q).usersByRegion, InRegion("Europe")) == [RegionCount("Europe", 300)]
  {
    var s := MockAnalytics(q).usersByRegion;
    assert s[0].region == "North America" && s[2].region == "Asia" && s[3].region == "Others";
    FilterSingle(s, InRegion("Europe"), 1);
  }

  /** A selected region charts its filtered entries, each with the mean. */
  lemma SelectedRegionCharted(s: seq<RegionCount>, region: string)
    requires |s| > 0 && region != ""
    ensures ProcessRegionData(s, Some(region)) == Annotate(Filter(s, InRegion(region)), MeanCount(s))
  {
  }

  /** With the mock data, selecting Europe charts exactly one row. */
  lemma MockEuropeBreakdown(q: AnalyticsQuery)
    ensures ProcessRegionData(MockAnalytics(q).usersByRegion, Some("Europe")) == [RegionRow("Europe", 300, 250.0)]
  {
    var s := MockAnalytics(q).usersByRegion;
    SelectedRegionCharted(s, "Europe");
    MockMeanCount(q);
    MockEuropeEntries(q);
  }

  /** The outcome of `handleDateRangeChange(start, end)`; `None` is an input
      that does not parse as a date. */
  datatype DateChange =
    | Dispatched(range: DateRange)  // `setDateRange` is dispatched
    | RejectedStartAfterEnd         // the alert is shown, nothing is dispatched
    | ThrewInvalidDate              // `toISOString` throws, nothing is dispatched

  /** An unparseable date compares false against anything, so it passes the
      `start > end` guard and then makes `toISOString` throw. */
  function HandleDateRangeChange(start: Option<int>, end: Option<int>): (outcome: DateChange)
    ensures outcome.Dispatched? <==> start.Some? && end.Some? && start.value <= end.value
    ensures outcome.Dispatched? ==> outcome.range == DateRange(start.value, end.value)
    ensures outcome.RejectedStartAfterEnd? <==> start.Some? && end.Some? && start.value > end.value
  {
    if start.Some? && end.Some? && start.value > end.value then RejectedStartAfterEnd
    else if start.None? || end.None? then ThrewInvalidDate
    else Dispatched(DateRange(start.value, end.value))
  }

  /** `handleRegionChange`: the "All Regions" option's `''` becomes `null`. */
  function HandleRegionChange(value: string): (region: Option<string>)
    ensures region == None <==> value == ""
    ensures region.Some? ==> region.value == value
    ensures !NoRegionSelected(region) <==> value != ""
  {
    if value == "" then None else Some(value)
  }

  /** The `<select>`'s value, `selectedRegion || ''`. */
  function SelectValue(selected: Option<string>): (value: string)
    ensures value == "" <==> NoRegionSelected(selected)
    ensures !NoRegionSelected(selected) ==> value == selected.value
  {
    match selected
    case None => ""
    case Some(region) => region
  }

  /** Choosing an option and reading the select back gives the option; a
      stored region the handler could have produced reads back to itself. */
  lemma RegionSelectRoundTrip(value: string, selected: Option<string>)
    ensures SelectValue(HandleRegionChange(value)) == value
    ensures selected != Some("") ==> HandleRegionChange(SelectValue(selected)) == selected
  {
  }

  /** What the user can do on the dashboard, and the fetch it triggers. */
  datatype DashboardEvent =
    | StartDateInput(start: Option<int>)
    | EndDateInput(end: Option<int>)
    | RegionInput(value: string)
    | FetchPending
    | FetchFulfilled(payload: Snapshot)
    | FetchRejected(message: Option<string>)

  function ApplyDateChange(st: AnalyticsState, outcome: DateChange): AnalyticsState
  {
    if outcome.Dispatched? then SetDateRange(st, outcome.range) else st
  }

  /** The start input pairs the new start with the stored end, the end input
      the stored start with the new end; a pair that is out of order or does
      not parse leaves the range alone. The region select stores `''` as
      `null`. Each event touches only the fields its handler or reducer
      writes. */
  function Handle(st: AnalyticsState, e: DashboardEvent): (r: AnalyticsState)
    ensures e.StartDateInput? ==>
      r.dateRange == if e.start.Some? && e.start.value <= st.dateRange.end then DateRange(e.start.value, st.dateRange.end) else st.dateRange
    ensures e.EndDateInput? ==>
      r.dateRange == if e.end.Some? && st.dateRange.start <= e.end.value then DateRange(st.dateRange.start, e.end.value) else st.dateRange
    ensures e.StartDateInput? || e.EndDateInput? ==>
      r.snapshot == st.snapshot && r.loading == st.loading && r.error == st.error && r.selectedRegion == st.selectedRegion
    ensures e.RegionInput? ==> r.selectedRegion == (if e.value == "" then None else Some(e.value))
    ensures e.RegionInput? ==>
      r.snapshot == st.snapshot && r.loading == st.loading && r.error == st.error && r.dateRange == st.dateRange
    ensures !e.RegionInput? && !e.StartDateInput? && !e.EndDateInput? ==>
      r.dateRange == st.dateRange && r.selectedRegion == st.selectedRegion
    ensures e.FetchFulfilled? ==> r.snapshot == e.payload && r.error == st.error
    ensures e.FetchRejected? ==> r.snapshot == st.snapshot && r.error.Some?
  {
    match e
    case StartDateInput(start) => ApplyDateChange(st, HandleDateRangeChange(start, Some(st.dateRange.end)))
    case EndDateInput(end) => ApplyDateChange(st, HandleDateRangeChange(Some(st.dateRange.start), end))
    case RegionInput(value) => SetSelectedRegion(st, HandleRegionChange(value))
    case FetchPending => FetchAnalyticsPending(st)
    case FetchFulfilled(payload) => FetchAnalyticsFulfilled(st, payload)
    case FetchRejected(message) => FetchAnalyticsRejected(st, message)
  }

  function RunDashboard(st: AnalyticsState, events: seq<DashboardEvent>): AnalyticsState
    decreases |events|
  {
    if |events| == 0 then st else RunDashboard(Handle(st, events[0]), events[1..])
  }

  /** What the dashboard keeps true of the store: the stored range is ordered
      and the stored region is never the empty string. */
  ghost predicate DashboardInvariant(st: AnalyticsState)
  {
    st.dateRange.start <= st.dateRange.end && st.selectedRegion != Some("")
  }

  lemma HandleKeepsInvariant(st: AnalyticsState, e: DashboardEvent)
    requires DashboardInvariant(st)
    ensures DashboardInvariant(Handle(st, e))
  {
  }

  /** However the user edits the dates and the region, and however fetches
      end, every stored range has start no later than end. */
  lemma {:induction false} DashboardKeepsInvariant(st: AnalyticsState, events: seq<DashboardEvent>)
    requires DashboardInvariant(st)
    ensures DashboardInvariant(RunDashboard(st, events))
    decreases |events|
  {
    if |events| > 0 {
      HandleKeepsInvariant(st, events[0]);
      DashboardKeepsInvariant(Handle(st, events[0]), events[1..]);
    }
  }

  /** Starting from the initial state, whose two clock readings are taken in
      order, every reachable state has an ordered range and stores no `''`. */
  lemma ReachableStatesOrdered(startNow: int, endNow: int, events: seq<DashboardEvent>)
    requires startNow <= endNow
    ensures var st := RunDashboard(InitialState(startNow, endNow), events);
      st.dateRange.start <= st.dateRange.end
      && (NoRegionSelected(st.selectedRegion) <==> st.selectedRegion == None)
  {
    DashboardKeepsInvariant(InitialState(startNow, endNow), events);
  }

  /** No event clears an analytics error: a successful fetch leaves it. */
  lemma {:induction false} AnalyticsErrorNeverCleared(st: AnalyticsState, events: seq<DashboardEvent>)
    requires st.error.Some?
    ensures RunDashboard(st, events).error.Some?
    decreases |events|
  {
    if |events| > 0 {
      AnalyticsErrorNeverCleared(Handle(st, events[0]), events[1..]);
    }
  }
}
