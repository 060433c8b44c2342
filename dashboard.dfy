/**
 * The dashboard's statistics: the totals computed when the links are fetched, the
 * five most recent links, and the six-month chart of links created and visits.
 */
module Dashboard {
  import opened Types
  import Links

  const RecentLimit: nat := 5
  const ChartMonths: nat := 6

  datatype Stats = Stats(totalLinks: nat, totalVisits: int, linksThisMonth: nat)

  /** The statistics shown before any fetch has succeeded. */
  const InitialStats := Stats(0, 0, 0)

  /** `links.reduce((sum, link) => sum + link.visit_count, 0)`, folded from the left. */
  function TotalVisits(links: seq<Link>): (total: int)
    ensures (forall i :: 0 <= i < |links| ==> links[i].visitCount >= 0) ==>
      total >= 0 && forall i :: 0 <= i < |links| ==> links[i].visitCount <= total
  {
    if links == [] then 0
    else TotalVisits(links[..|links| - 1]) + links[|links| - 1].visitCount
  }

  /** `links.filter(...)` keeping the links created in month `ym`, in their order. */
  function LinksInMonth(links: seq<Link>, ym: YearMonth): (r: seq<Link>)
    ensures |r| <= |links|
    ensures forall x :: x in r <==> x in links && MonthOf(x.createdAt) == ym
  {
    if links == [] then []
    else
      var last := links[|links| - 1];
      LinksInMonth(links[..|links| - 1], ym) + (if MonthOf(last.createdAt) == ym then [last] else [])
  }

  /** `links.slice(0, 5)`. */
  function Recent(links: seq<Link>): (r: seq<Link>)
    ensures |r| == if |links| < RecentLimit then |links| else RecentLimit
    ensures r == links[..|r|]
  {
    if |links| <= RecentLimit then links else links[..RecentLimit]
  }

  /** The statistics `fetchData` stores for the fetched `links` at time `now`. */
  function ComputeStats(links: seq<Link>, now: Instant): (stats: Stats)
    ensures stats.totalLinks == |links| && stats.linksThisMonth <= stats.totalLinks
    ensures stats.linksThisMonth == |LinksInMonth(links, MonthOf(now))|
    ensures (forall i :: 0 <= i < |links| ==> links[i].visitCount >= 0) ==> stats.totalVisits >= 0
  {
    Stats(|links|, TotalVisits(links), |LinksInMonth(links, MonthOf(now))|)
  }

  /** The reduce distributes over concatenation. */
  lemma {:induction false} TotalVisitsAppend(a: seq<Link>, b: seq<Link>)
    ensures TotalVisits(a + b) == TotalVisits(a) + TotalVisits(b)
  {
    if b != [] {
      var b' := b[..|b| - 1];
      assert (a + b)[..|a + b| - 1] == a + b';
      assert (a + b)[|a + b| - 1] == b[|b| - 1];
      TotalVisitsAppend(a, b');
    } else {
      assert a + b == a;
    }
  }

  /**
   * The last link of `a` sits at some position `k` of any `b` with the same links,
   * and what is left of `a` and `b` without it again holds the same links.
   */
  lemma MatchLast(a: seq<Link>, b: seq<Link>) returns (k: int)
    requires a != [] && multiset(a) == multiset(b)
    ensures 0 <= k < |b| && b[k] == a[|a| - 1]
    ensures a == a[..|a| - 1] + [b[k]]
    ensures b == b[..k] + [b[k]] + b[k + 1..]
    ensures multiset(a[..|a| - 1]) == multiset(b[..k] + b[k + 1..])
  {
    var x := a[|a| - 1];
    var a' := a[..|a| - 1];
    assert a == a' + [x];
    assert x in multiset(b);
    k :| 0 <= k < |b| && b[k] == x;
    assert b == b[..k] + [x] + b[k + 1..];
    var b' := b[..k] + b[k + 1..];
    assert multiset(b) == multiset(b[..k]) + multiset{x} + multiset(b[k + 1..]);
    assert multiset(a') == multiset(a) - multiset{x};
    assert multiset(b') == multiset(b) - multiset{x};
  }

  /** The total of visits does not depend on the order the links come in. */
  lemma {:induction false} TotalVisitsIgnoresOrder(a: seq<Link>, b: seq<Link>)
    requires multiset(a) == multiset(b)
    ensures TotalVisits(a) == TotalVisits(b)
  {
    if a != [] {
      var k := MatchLast(a, b);
      var x := b[k];
      var a', b' := a[..|a| - 1], b[..k] + b[k + 1..];
      TotalVisitsIgnoresOrder(a', b');
      TotalVisitsAppend(b[..k] + [x], b[k + 1..]);
      TotalVisitsAppend(b[..k], [x]);
      TotalVisitsAppend(b[..k], b[k + 1..]);
    }
  }

  /** The links this month do not depend on the order either, only on which links there are. */
  lemma {:induction false} LinksInMonthIgnoresOrder(a: seq<Link>, b: seq<Link>, ym: YearMonth)
    requires multiset(a) == multiset(b)
    ensures |LinksInMonth(a, ym)| == |LinksInMonth(b, ym)|
  {
    CountMatchesFilter(a, ym);
    CountMatchesFilter(b, ym);
    CountIgnoresOrder(a, b, ym);
  }

  /** The fetched statistics depend only on which links there are, not on their order. */
  lemma StatsIgnoreOrder(a: seq<Link>, b: seq<Link>, now: Instant)
    requires multiset(a) == multiset(b)
    ensures ComputeStats(a, now) == ComputeStats(b, now)
  {
    assert |a| == |multiset(a)| == |multiset(b)| == |b|;
    TotalVisitsIgnoresOrder(a, b);
    LinksInMonthIgnoresOrder(a, b, MonthOf(now));
  }

  /** The five recent links are the newest: none of the rest was created after them. */
  lemma RecentAreNewest(links: seq<Link>)
    requires Links.NewestFirst(links)
    ensures |Recent(links)| == if |links| < RecentLimit then |links| else RecentLimit
    ensures Recent(links) == links[..|Recent(links)|]
    ensures forall i, j :: 0 <= i < |Recent(links)| <= j < |links| ==>
      NotAfter(links[j].createdAt, Recent(links)[i].createdAt)
  {
  }

  // ---------------------------------------------------------------------------
  // The chart

  /** The month `i` months before `now`; `new Date(y, m - i, 1)` rolls over into earlier years. */
  function MonthsBefore(now: YearMonth, i: int): (r: YearMonth)
    ensures MonthIndex(r) == MonthIndex(now) - i
    ensures 0 <= i <= now.month ==> r == YearMonth(now.year, now.month - i)
    ensures now.month < i <= now.month + 12 ==> r == YearMonth(now.year - 1, now.month - i + 12)
  {
    var total := MonthIndex(now) - i;
    YearMonth(total / 12, total % 12)
  }

  lemma MonthIndexInjective(a: YearMonth, b: YearMonth)
    requires MonthIndex(a) == MonthIndex(b)
    ensures a == b
  {
  }

  /** A chart bucket's running totals, as `{ links, visits }`. */
  datatype Tally = Tally(links: int, visits: int)

  datatype Bucket = Bucket(month: YearMonth, links: int, visits: int)

  /** The number of links created in `ym`, counted one link at a time. */
  function CountInMonth(links: seq<Link>, ym: YearMonth): int
  {
    if links == [] then 0
    else CountInMonth(links[..|links| - 1], ym) + (if MonthOf(links[|links| - 1].createdAt) == ym then 1 else 0)
  }

  /** The visits of the links created in `ym`, added one link at a time. */
  function VisitsInMonth(links: seq<Link>, ym: YearMonth): int
  {
    if links == [] then 0
    else
      var last := links[|links| - 1];
      VisitsInMonth(links[..|links| - 1], ym) + (if MonthOf(last.createdAt) == ym then last.visitCount else 0)
  }

  /** The chart: six buckets, oldest first, the last one the current month. */
  function ChartSpec(links: seq<Link>, now: YearMonth): (chart: seq<Bucket>)
    ensures |chart| == ChartMonths
    ensures chart[ChartMonths - 1].month == now
    ensures forall k :: 0 <= k < |chart| ==>
      MonthIndex(chart[k].month) == MonthIndex(now) - (ChartMonths - 1) + k
  {
    seq(ChartMonths, k requires 0 <= k < ChartMonths => BucketAt(links, now, k))
  }

  /** Bucket `k` of the chart, counted from the oldest: its month, links created in it, and their visits. */
  function BucketAt(links: seq<Link>, now: YearMonth, k: int): (b: Bucket)
    ensures MonthIndex(b.month) == MonthIndex(now) - (ChartMonths - 1) + k
    ensures b.links == CountInMonth(links, b.month) && b.visits == VisitsInMonth(links, b.month)
  {
    var m := MonthsBefore(now, ChartMonths - 1 - k);
    Bucket(m, CountInMonth(links, m), VisitsInMonth(links, m))
  }

  /** `generateChartData`: sets up the six months, oldest first, then tallies each link into its month. */
  method GenerateChartData(allLinks: seq<Link>, now: Instant) returns (chart: seq<Bucket>)
    ensures chart == ChartSpec(allLinks, MonthOf(now))
  {
    var current := MonthOf(now);
    var months, order := InitMonths(current);
    months := TallyLinks(allLinks, months, order);
    chart := seq(|order|, k requires 0 <= k < |order| =>
      var t := months[order[k]];
      Bucket(order[k], t.links, t.visits));
    forall k | 0 <= k < ChartMonths
      ensures chart[k] == ChartSpec(allLinks, current)[k]
    {
      assert order[k] in months;
    }
  }

  /**
   * The first loop of `generateChartData`: one zeroed entry per month of the window,
   * keyed in insertion order from five months back to the current month.
   */
  method InitMonths(current: YearMonth) returns (months: map<YearMonth, Tally>, order: seq<YearMonth>)
    ensures |order| == ChartMonths
    ensures forall k :: 0 <= k < |order| ==> order[k] == MonthsBefore(current, ChartMonths - 1 - k)
    ensures forall m :: m in months <==> m in order
    ensures forall m :: m in months ==> months[m] == Tally(0, 0)
  {
    months := map[];
    order := [];
    var i: int := ChartMonths - 1;
    while i >= 0
      invariant -1 <= i < ChartMonths
      invariant |order| == ChartMonths - 1 - i
      invariant forall k :: 0 <= k < |order| ==> order[k] == MonthsBefore(current, ChartMonths - 1 - k)
      invariant forall m :: m in months <==> m in order
      invariant forall m :: m in months ==> months[m] == Tally(0, 0)
      invariant forall m :: m in months ==> MonthIndex(m) < MonthIndex(current) - i
    {
      var key := MonthsBefore(current, i);
      if key !in months {
        order := order + [key];
      }
      months := months[key := Tally(0, 0)];
      i := i - 1;
    }
  }

  /**
   * The second loop of `generateChartData`: every link whose month has an entry adds
   * one link and its visits to that entry; other links are skipped.
   */
  method TallyLinks(allLinks: seq<Link>, start: map<YearMonth, Tally>, order: seq<YearMonth>)
    returns (months: map<YearMonth, Tally>)
    requires forall m :: m in start <==> m in order
    requires forall m :: m in start ==> start[m] == Tally(0, 0)
    ensures forall m :: m in months <==> m in order
    ensures forall m :: m in months ==> months[m] == Tally(CountInMonth(allLinks, m), VisitsInMonth(allLinks, m))
  {
    months := start;
    var j := 0;
    while j < |allLinks|
      invariant 0 <= j <= |allLinks|
      invariant forall m :: m in months <==> m in order
      invariant forall m :: m in months ==>
        months[m] == Tally(CountInMonth(allLinks[..j], m), VisitsInMonth(allLinks[..j], m))
    {
      var link := allLinks[j];
      var key := MonthOf(link.createdAt);
      forall m | m in months {
        InMonthStep(allLinks, j, m);
      }
      if key in months {
        var t := months[key];
        months := months[key := Tally(t.links + 1, t.visits + link.visitCount)];
      }
      j := j + 1;
    }
    assert allLinks[..j] == allLinks;
  }

  /** Taking one more link adds it to the count and the visits of its own month only. */
  lemma InMonthStep(links: seq<Link>, j: int, m: YearMonth)
    requires 0 <= j < |links|
    ensures CountInMonth(links[..j + 1], m) ==
      CountInMonth(links[..j], m) + (if MonthOf(links[j].createdAt) == m then 1 else 0)
    ensures VisitsInMonth(links[..j + 1], m) ==
      VisitsInMonth(links[..j], m) + (if MonthOf(links[j].createdAt) == m then links[j].visitCount else 0)
  {
    assert links[..j + 1][..j] == links[..j];
  }

  /** The chart's current-month bucket counts exactly the links the statistics call "this month". */
  lemma CurrentBucketIsThisMonth(links: seq<Link>, now: Instant)
    ensures ChartSpec(links, MonthOf(now))[ChartMonths - 1].links == ComputeStats(links, now).linksThisMonth
  {
    CountMatchesFilter(links, MonthOf(now));
  }

  lemma {:induction false} CountMatchesFilter(links: seq<Link>, ym: YearMonth)
    ensures CountInMonth(links, ym) == |LinksInMonth(links, ym)|
  {
    if links != [] {
      CountMatchesFilter(links[..|links| - 1], ym);
    }
  }

  lemma {:induction false} CountIgnoresOrder(a: seq<Link>, b: seq<Link>, ym: YearMonth)
    requires multiset(a) == multiset(b)
    ensures CountInMonth(a, ym) == CountInMonth(b, ym)
  {
    if a != [] {
      var k := MatchLast(a, b);
      var x := b[k];
      var a', b' := a[..|a| - 1], b[..k] + b[k + 1..];
      CountIgnoresOrder(a', b', ym);
      CountAppend(b[..k] + [x], b[k + 1..], ym);
      CountAppend(b[..k], [x], ym);
      CountAppend(b[..k], b[k + 1..], ym);
    }
  }

  lemma {:induction false} CountAppend(a: seq<Link>, b: seq<Link>, ym: YearMonth)
    ensures CountInMonth(a + b, ym) == CountInMonth(a, ym) + CountInMonth(b, ym)
  {
    if b != [] {
      var b' := b[..|b| - 1];
      assert (a + b)[..|a + b| - 1] == a + b';
      assert (a + b)[|a + b| - 1] == b[|b| - 1];
      CountAppend(a, b', ym);
    } else {
      assert a + b == a;
    }
  }

  /** `ym` falls in the six months the chart shows. */
  predicate InWindow(now: YearMonth, ym: YearMonth)
  {
    0 <= MonthIndex(now) - MonthIndex(ym) < ChartMonths
  }

  /** The links created inside the chart's six months, and their visits. */
  function WindowTally(links: seq<Link>, now: YearMonth): Tally
  {
    if links == [] then Tally(0, 0)
    else
      var last := links[|links| - 1];
      var t := WindowTally(links[..|links| - 1], now);
      if InWindow(now, MonthOf(last.createdAt)) then Tally(t.links + 1, t.visits + last.visitCount) else t
  }

  /** The month of the chart's bucket `k`, counted from the oldest. */
  function WindowMonth(now: YearMonth, k: int): YearMonth
  {
    MonthsBefore(now, ChartMonths - 1 - k)
  }

  /** A month matches one of the six bucket months exactly when it lies in the window. */
  lemma MatchesOneBucket(now: YearMonth, ym: YearMonth)
    ensures (if WindowMonth(now, 0) == ym then 1 else 0) + (if WindowMonth(now, 1) == ym then 1 else 0) +
            (if WindowMonth(now, 2) == ym then 1 else 0) + (if WindowMonth(now, 3) == ym then 1 else 0) +
            (if WindowMonth(now, 4) == ym then 1 else 0) + (if WindowMonth(now, 5) == ym then 1 else 0)
            == if InWindow(now, ym) then 1 else 0
  {
    if InWindow(now, ym) {
      var k := ChartMonths - 1 - (MonthIndex(now) - MonthIndex(ym));
      MonthIndexInjective(WindowMonth(now, k), ym);
    }
  }

  lemma {:induction false} WindowLinksTotal(links: seq<Link>, now: YearMonth)
    ensures CountInMonth(links, WindowMonth(now, 0)) + CountInMonth(links, WindowMonth(now, 1)) +
            CountInMonth(links, WindowMonth(now, 2)) + CountInMonth(links, WindowMonth(now, 3)) +
            CountInMonth(links, WindowMonth(now, 4)) + CountInMonth(links, WindowMonth(now, 5))
            == WindowTally(links, now).links
  {
    if links != [] {
      WindowLinksTotal(links[..|links| - 1], now);
      MatchesOneBucket(now, MonthOf(links[|links| - 1].createdAt));
    }
  }

  lemma {:induction false} WindowVisitsTotal(links: seq<Link>, now: YearMonth)
    ensures VisitsInMonth(links, WindowMonth(now, 0)) + VisitsInMonth(links, WindowMonth(now, 1)) +
            VisitsInMonth(links, WindowMonth(now, 2)) + VisitsInMonth(links, WindowMonth(now, 3)) +
            VisitsInMonth(links, WindowMonth(now, 4)) + VisitsInMonth(links, WindowMonth(now, 5))
            == WindowTally(links, now).visits
  {
    if links != [] {
      var ym := MonthOf(links[|links| - 1].createdAt);
      WindowVisitsTotal(links[..|links| - 1], now);
      MatchesOneBucket(now, ym);
      if InWindow(now, ym) {
        var k := ChartMonths - 1 - (MonthIndex(now) - MonthIndex(ym));
        MonthIndexInjective(WindowMonth(now, k), ym);
      }
    }
  }

  /**
   * Each link lands in at most one bucket and links outside the six months in none:
   * the buckets together hold exactly the links, and the visits, of the window.
   */
  lemma ChartCoversWindow(links: seq<Link>, now: YearMonth)
    ensures var c := ChartSpec(links, now);
      c[0].links + c[1].links + c[2].links + c[3].links + c[4].links + c[5].links == WindowTally(links, now).links &&
      c[0].visits + c[1].visits + c[2].visits + c[3].visits + c[4].visits + c[5].visits == WindowTally(links, now).visits
  {
    WindowLinksTotal(links, now);
    WindowVisitsTotal(links, now);
  }

  /** The window never holds more links than were fetched. */
  lemma {:induction false} WindowTallyBounded(links: seq<Link>, now: YearMonth)
    ensures 0 <= WindowTally(links, now).links <= |links|
  {
    if links != [] {
      WindowTallyBounded(links[..|links| - 1], now);
    }
  }

  // ---------------------------------------------------------------------------
  // The view's state

  class DashboardState {
    var stats: Stats
    var allLinks: seq<Link>
    var recentLinks: seq<Link>
    var isLoading: bool

    constructor ()
      ensures stats == InitialStats && allLinks == [] && recentLinks == [] && isLoading
    {
      stats := InitialStats;
      allLinks := [];
      recentLinks := [];
      isLoading := true;
    }

    /**
     * `fetchData`: on success stores the statistics, all links and the recent five;
     * on failure keeps what was there; either way stops loading.
     */
    method FetchData(store: Links.LinkStore, reply: Links.Reply, now: Instant)
      modifies this
      ensures !isLoading
      ensures Links.Listing(store.rows, reply).Throws? ==>
        stats == old(stats) && allLinks == old(allLinks) && recentLinks == old(recentLinks)
      ensures Links.Listing(store.rows, reply).Ok? ==>
        var links := Links.Listing(store.rows, reply).value;
        stats == ComputeStats(links, now) && allLinks == links && recentLinks == Recent(links)
    {
      var r := store.GetLinks(reply);
      if r.Ok? {
        var links := r.value;
        stats := ComputeStats(links, now);
        allLinks := links;
        recentLinks := Recent(links);
      }
      isLoading := false;
    }
  }

  /** A fetch that fails on a fresh dashboard leaves the statistics at zero. */
  method FailedFirstFetch(store: Links.LinkStore, thrown: Thrown) returns (shown: Stats, loading: bool)
    ensures shown == InitialStats && !loading
  {
    var view := new DashboardState();
    view.FetchData(store, Links.Failed(thrown), Instant(0, 0, 0));
    shown, loading := view.stats, view.isLoading;
  }
}
