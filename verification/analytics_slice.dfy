/** The analytics store: the reducers of the `analytics` slice, its initial
    state and the snapshot its mock fetch resolves with. Dates are instants
    in milliseconds; ISO-string formatting is not modelled. */
module AnalyticsSlice {
  import opened Wrappers

  datatype DateRange = DateRange(start: int, end: int)

  datatype TrendPoint = TrendPoint(date: string, count: int)
  datatype StatusCount = StatusCount(status: string, count: int)
  datatype RegionCount = RegionCount(region: string, count: int)

  /** The six fields a successful fetch writes (`AnalyticsResponse`). */
  datatype Snapshot = Snapshot(
    totalUsers: int,
    activeUsers: int,
    deletedUsers: int,
    registrationTrend: seq<TrendPoint>,
    usersByStatus: seq<StatusCount>,
    usersByRegion: seq<RegionCount>)

  /** The store: the latest snapshot plus the fetch flags and the query
      context (date range and region filter). */
  datatype AnalyticsState = AnalyticsState(
    snapshot: Snapshot,
    loading: bool,
    error: Option<string>,
    dateRange: DateRange,
    selectedRegion: Option<string>)

  /** The arguments of `fetchAnalytics`. */
  datatype AnalyticsQuery = AnalyticsQuery(startDate: int, endDate: int, region: Option<string>)

  const DayMillis := 24 * 60 * 60 * 1000

  /** The initial state. `initialState` reads the clock twice: `startNow` for
      the start of the range (180 days back) and `endNow` for its end. With
      a clock that does not run backwards between the two readings the range
      spans at least 180 days. No region, an all-zero snapshot. */
  function InitialState(startNow: int, endNow: int): (st: AnalyticsState)
    ensures st.dateRange == DateRange(startNow - 180 * DayMillis, endNow)
    ensures startNow <= endNow ==> st.dateRange.end - st.dateRange.start >= 180 * DayMillis
    ensures st.snapshot == Snapshot(0, 0, 0, [], [], [])
    ensures st.selectedRegion == None && !st.loading && st.error == None
  {
    AnalyticsState(Snapshot(0, 0, 0, [], [], []), false, None,
                   DateRange(startNow - 180 * DayMillis, endNow), None)
  }

  /** `setDateRange`: stores the range as given; it checks nothing. */
  function SetDateRange(st: AnalyticsState, range: DateRange): (r: AnalyticsState)
    ensures r.dateRange == range
    ensures r.snapshot == st.snapshot && r.loading == st.loading && r.error == st.error
    ensures r.selectedRegion == st.selectedRegion
  {
    st.(dateRange := range)
  }

  /** `setSelectedRegion`: stores the region as given, `null` included. */
  function SetSelectedRegion(st: AnalyticsState, region: Option<string>): (r: AnalyticsState)
    ensures r.selectedRegion == region
    ensures r.snapshot == st.snapshot && r.loading == st.loading && r.error == st.error
    ensures r.dateRange == st.dateRange
  {
    st.(selectedRegion := region)
  }

  function FetchAnalyticsPending(st: AnalyticsState): (r: AnalyticsState)
    ensures r.loading
    ensures r.snapshot == st.snapshot && r.error == st.error
    ensures r.dateRange == st.dateRange && r.selectedRegion == st.selectedRegion
  {
    st.(loading := true)
  }

  /** `fetchAnalytics.fulfilled`: `Object.assign` of the payload replaces the
      snapshot wholesale; the query context and an earlier error stay. */
  function FetchAnalyticsFulfilled(st: AnalyticsState, payload: Snapshot): (r: AnalyticsState)
    ensures !r.loading
    ensures r.snapshot == payload
    ensures r.error == st.error
    ensures r.dateRange == st.dateRange && r.selectedRegion == st.selectedRegion
  {
    st.(loading := false, snapshot := payload)
  }

  const FetchAnalyticsFallback := "Failed to fetch analytics"

  function FetchAnalyticsRejected(st: AnalyticsState, message: Option<string>): (r: AnalyticsState)
    ensures !r.loading
    ensures r.error.Some? && r.error.value != ""
    ensures message.Some? && message.value != "" ==> r.error == message
    ensures message == None || message == Some("") ==> r.error == Some(FetchAnalyticsFallback)
    ensures r.snapshot == st.snapshot
    ensures r.dateRange == st.dateRange && r.selectedRegion == st.selectedRegion
  {
    st.(loading := false, error := Some(RejectionMessage(message, FetchAnalyticsFallback)))
  }

  /** A later successful fetch overwrites an earlier one completely. */
  lemma LatestFetchWins(st: AnalyticsState, first: Snapshot, second: Snapshot)
    ensures FetchAnalyticsFulfilled(FetchAnalyticsFulfilled(st, first), second)
         == FetchAnalyticsFulfilled(st, second)
  {
  }

  function SumStatus(s: seq<StatusCount>): int
  {
    if |s| == 0 then 0 else s[0].count + SumStatus(s[1..])
  }

  function SumRegions(s: seq<RegionCount>): int
  {
    if |s| == 0 then 0 else s[0].count + SumRegions(s[1..])
  }

  /** The count recorded for `status` (the first entry with that name), or 0. */
  function StatusCountOf(s: seq<StatusCount>, status: string): int
  {
    if |s| == 0 then 0
    else if s[0].status == status then s[0].count
    else StatusCountOf(s[1..], status)
  }

  /** The snapshot the mock fetch resolves with, whatever it is asked. It is
      consistent: both breakdowns add up to the total, and the active count
      is the `active` status entry. */
  function MockAnalytics(query: AnalyticsQuery): (snap: Snapshot)
    ensures snap.totalUsers == SumStatus(snap.usersByStatus) == SumRegions(snap.usersByRegion) == 1000
    ensures snap.activeUsers == StatusCountOf(snap.usersByStatus, "active") == 750
    ensures snap.deletedUsers == 50
    ensures |snap.registrationTrend| == 3 && |snap.usersByRegion| == 4
  {
    Snapshot(
      1000, 750, 50,
      [TrendPoint("2024-01", 150), TrendPoint("2024-02", 180), TrendPoint("2024-03", 220)],
      [StatusCount("active", 750), StatusCount("inactive", 250)],
      [RegionCount("North America", 400), RegionCount("Europe", 300),
       RegionCount("Asia", 200), RegionCount("Others", 100)])
  }

  /** The mock ignores its date range and region. */
  lemma MockIgnoresQuery(q1: AnalyticsQuery, q2: AnalyticsQuery)
    ensures MockAnalytics(q1) == MockAnalytics(q2)
  {
  }
}
