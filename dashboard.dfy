/**
 * The dashboard's figures, computed in `fetchDashboardData` from the five
 * newest designs and the category statistics fetched together: the total
 * number of designs, the views and link clicks summed over the designs
 * returned, and the number of categories.
 */
module Dashboard {
  import opened Wrappers
  import opened Services

  /** The parts of a returned design the figures read; either count may be missing. */
  datatype RecentDesign = RecentDesign(id: string, viewsCount: Option<int>, urlClicksCount: Option<int>)

  /** One entry of the category statistics: the category (`_id`) and how many designs it has. */
  datatype CategoryStat = CategoryStat(id: Option<string>, count: int)

  datatype PageInfo = PageInfo(totalCount: Option<int>)

  /** The `getDesigns` body; both parts may be missing. */
  datatype DesignsResponse = DesignsResponse(designs: Option<seq<RecentDesign>>, pagination: Option<PageInfo>)

  /** The `getCategoryStats` body. */
  datatype CategoryResponse = CategoryResponse(stats: Option<seq<CategoryStat>>)

  datatype Stats = Stats(totalDesigns: int, totalViews: int, totalClicks: int, categories: nat)

  /** What the page holds: `stats` stays null until a fetch succeeds. */
  datatype DashboardState = DashboardState(stats: Option<Stats>, recentDesigns: seq<RecentDesign>,
                                           categoryStats: seq<CategoryStat>, loading: bool)

  const Initial: DashboardState := DashboardState(None, [], [], true)

  /** Which count a fold adds up. */
  datatype Count = Views | Clicks

  /** `d.viewsCount || 0` and `d.urlClicksCount || 0`. */
  function CountOf(d: RecentDesign, c: Count): int {
    match c
    case Views => d.viewsCount.GetOr(0)
    case Clicks => d.urlClicksCount.GetOr(0)
  }

  /** The reference sum of one count over a list of designs. */
  function Sum(ds: seq<RecentDesign>, c: Count): int {
    if ds == [] then 0 else CountOf(ds[0], c) + Sum(ds[1..], c)
  }

  /** `ds.reduce((acc, d) => acc + count(d), acc)`: a fold from the left, as `reduce` runs. */
  function Reduce(acc: int, ds: seq<RecentDesign>, c: Count): (r: int)
    ensures r == acc + Sum(ds, c)
    decreases |ds|
  {
    if ds == [] then acc else Reduce(acc + CountOf(ds[0], c), ds[1..], c)
  }

  lemma {:induction false} SumAppend(a: seq<RecentDesign>, b: seq<RecentDesign>, c: Count)
    ensures Sum(a + b, c) == Sum(a, c) + Sum(b, c)
  {
    if a != [] {
      assert (a + b)[1..] == a[1..] + b;
      SumAppend(a[1..], b, c);
    } else {
      assert a + b == b;
    }
  }

  /** A design whose count is missing adds nothing; a list of such designs sums to 0. */
  lemma {:induction false} SumMissing(ds: seq<RecentDesign>, c: Count)
    requires forall i :: 0 <= i < |ds| ==> CountOf(ds[i], c) == 0
    ensures Sum(ds, c) == 0
  {
    if ds != [] {
      SumMissing(ds[1..], c);
    }
  }

  /** With no negative counts the total is at least any one design's count. */
  lemma {:induction false} SumCovers(ds: seq<RecentDesign>, c: Count, i: int)
    requires forall j :: 0 <= j < |ds| ==> CountOf(ds[j], c) >= 0
    requires 0 <= i < |ds|
    ensures Sum(ds, c) >= CountOf(ds[i], c) >= 0
  {
    SumNonNegative(ds[1..], c);
    if i > 0 {
      SumCovers(ds[1..], c, i - 1);
    }
  }

  lemma {:induction false} SumNonNegative(ds: seq<RecentDesign>, c: Count)
    requires forall j :: 0 <= j < |ds| ==> CountOf(ds[j], c) >= 0
    ensures Sum(ds, c) >= 0
  {
    if ds != [] {
      SumNonNegative(ds[1..], c);
    }
  }

  /** The figures of one fetch. */
  function ComputeStats(designsRes: DesignsResponse, categoryRes: CategoryResponse): (s: Stats)
    ensures s.totalViews == Sum(designsRes.designs.GetOr([]), Views)
    ensures s.totalClicks == Sum(designsRes.designs.GetOr([]), Clicks)
    ensures designsRes.designs.None? ==> s.totalViews == 0 && s.totalClicks == 0
    ensures s.totalDesigns == if designsRes.pagination.Some? then designsRes.pagination.value.totalCount.GetOr(0) else 0
    ensures s.categories == if categoryRes.stats.Some? then |categoryRes.stats.value| else 0
  {
    var designs := designsRes.designs.GetOr([]);
    Stats(if designsRes.pagination.Some? then designsRes.pagination.value.totalCount.GetOr(0) else 0,
          Reduce(0, designs, Views),
          Reduce(0, designs, Clicks),
          if categoryRes.stats.Some? then |categoryRes.stats.value| else 0)
  }

  /**
   * `fetchDashboardData`, given how the two requests fetched together
   * settled: on success the lists (or none) and the figures are shown; if
   * either request throws, everything but the spinner stays as it was.
   */
  function Load(st: DashboardState, outcome: Outcome<(DesignsResponse, CategoryResponse)>): (r: DashboardState)
    ensures !r.loading
    ensures outcome.Threw? ==> r == st.(loading := false)
    ensures outcome.Returned? ==>
      r.recentDesigns == outcome.value.0.designs.GetOr([])
      && r.categoryStats == outcome.value.1.stats.GetOr([])
      && r.stats == Some(ComputeStats(outcome.value.0, outcome.value.1))
      && r.stats.value.totalViews == Sum(r.recentDesigns, Views)
      && r.stats.value.totalClicks == Sum(r.recentDesigns, Clicks)
      && r.stats.value.categories == |r.categoryStats|
  {
    match outcome
    case Threw(_) => st.(loading := false)
    case Returned((designsRes, categoryRes)) =>
      DashboardState(Some(ComputeStats(designsRes, categoryRes)),
                     designsRes.designs.GetOr([]), categoryRes.stats.GetOr([]), false)
  }
}
