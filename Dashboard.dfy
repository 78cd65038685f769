/** The data rules of frontend/src/pages/Dashboard.jsx: which screen is
    shown, the colour band of a score badge, the display names of the rubric
    categories and the chart rows built from the per-category averages.
    The analytics payload is a parameter: the route that would produce it
    is not part of this source (backend/app.py serves no analytics route), so
    the shipped pair always ends on the failed-fetch path, whose screen is
    `FailedFetchShowsEmptyState`. Scores are the payload's averages, as
    reals. */
module Dashboard {
  import opened Wrappers
  import opened Js

  /** The three colours of `ScoreBadge`. */
  datatype Band = Green | Yellow | Red

  /** `getColor`: green from 80 up, yellow from 60 below 80, red below 60. */
  function ScoreBand(score: real): (b: Band)
    ensures b == Green <==> score >= 80.0
    ensures b == Yellow <==> 60.0 <= score < 80.0
    ensures b == Red <==> score < 60.0
  {
    if score >= 80.0 then Green else if score >= 60.0 then Yellow else Red
  }

  /** The bands in increasing order. */
  function Rank(b: Band): nat {
    match b
    case Red => 0
    case Yellow => 1
    case Green => 2
  }

  /** A higher score never gets a lower band. */
  lemma ScoreBandMonotone(s: real, t: real)
    requires s <= t
    ensures Rank(ScoreBand(s)) <= Rank(ScoreBand(t))
  {
  }

  /** The display names of the six rubric categories. */
  const Names: map<string, string> := map[
    "history" := "History",
    "red_flags" := "Red Flags",
    "meds_allergies" := "Meds & Allergies",
    "differential" := "Diagnosis",
    "plan" := "Plan",
    "communication" := "Communication"
  ]

  /** `formatCategoryName`: a known category's display name (all of them are
      non-empty, so `||` never falls through), any other key unchanged. */
  function FormatCategoryName(key: string): (r: string)
    ensures key in Names ==> r == Names[key]
    ensures key !in Names ==> r == key
  {
    if key in Names && Names[key] != "" then Names[key] else key
  }

  /** Distinct categories get distinct display names. */
  lemma KnownNamesDistinct(a: string, b: string)
    requires a in Names && b in Names && a != b
    ensures FormatCategoryName(a) != FormatCategoryName(b)
  {
    assert "Red Flags"[0] != "Diagnosis"[0];
  }

  /** One row of the category bar chart and of the radar chart: the
      category's display name, its average and the full mark 100. */
  datatype ChartRow = ChartRow(name: string, score: Json, fullMark: int)

  /** `Object.entries(analytics.category_avg).map(...)`, which builds both
      `categoryData` and `radarData`: one row per entry, in order. */
  function ChartRows(entries: seq<(string, Json)>): (rows: seq<ChartRow>)
    ensures |rows| == |entries|
    ensures forall i :: 0 <= i < |entries| ==>
              rows[i].name == FormatCategoryName(entries[i].0) && rows[i].score == entries[i].1 && rows[i].fullMark == 100
  {
    if entries == [] then [] else [ChartRow(FormatCategoryName(entries[0].0), entries[0].1, 100)] + ChartRows(entries[1..])
  }

  /** The chart rows of two entry lists are the rows of each, one after the
      other. */
  lemma {:induction false} ChartRowsAppend(a: seq<(string, Json)>, b: seq<(string, Json)>)
    ensures ChartRows(a + b) == ChartRows(a) + ChartRows(b)
  {
    if a != [] {
      assert (a + b)[1..] == a[1..] + b;
      ChartRowsAppend(a[1..], b);
    }
  }

  /** The entries of the six known categories give six different
      names. */
  lemma ChartLabelsDistinct(entries: seq<(string, Json)>, i: nat, j: nat)
    requires i < |entries| && j < |entries|
    requires entries[i].0 in Names && entries[j].0 in Names && entries[i].0 != entries[j].0
    ensures ChartRows(entries)[i].name != ChartRows(entries)[j].name
  {
    KnownNamesDistinct(entries[i].0, entries[j].0);
  }

  /** What the page renders. */
  datatype Screen = Loading | EmptyState | Charts

  /** The spinner while loading; then the empty state when there are no
      analytics (`null`) or `total_sessions === 0`; the charts otherwise. */
  function ScreenOf(loading: bool, analytics: Option<Obj>): (s: Screen)
    ensures s == Loading <==> loading
    ensures s == EmptyState <==> !loading && (analytics.None? || Get(analytics.value, "total_sessions") == Some(JNum(0)))
  {
    if loading then Loading
    else if analytics.None? || Get(analytics.value, "total_sessions") == Some(JNum(0)) then EmptyState
    else Charts
  }

  /** A failed fetch leaves the analytics `null`, so once loading ends the
      page shows the empty state. */
  lemma FailedFetchShowsEmptyState()
    ensures ScreenOf(false, None) == EmptyState
    ensures ScreenOf(true, None) == Loading
  {
  }

  /** Analytics with a positive session count are charted once loaded. */
  lemma SessionsShowCharts(analytics: Obj, n: int)
    requires Get(analytics, "total_sessions") == Some(JNum(n)) && n > 0
    ensures ScreenOf(false, Some(analytics)) == Charts
  {
  }
}
