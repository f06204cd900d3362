/** The two callbacks of the launch dashboard, reduced to the data they hand
    to the charts: the labels and values of the success pie chart, and the
    records plotted on the payload/outcome scatter chart. */
module Dashboard {
  import opened StringOrder
  import opened Launches

  /** The dropdown value that selects every launch site. */
  const AllSites: string := "All Sites"

  /** The `labels` and `values` lists passed to the pie chart. */
  datatype Summary = Summary(labels: seq<string>, values: seq<int>)

  // ---------------------------------------------------------------------
  // Column sums and counts

  /** `df['class'].sum()`: the sum of the outcome column. With 0/1
      outcomes it lies between zero and the number of records. */
  function SuccessCount(ds: seq<Record>): (n: int)
    ensures ValidOutcomes(ds) ==> 0 <= n <= |ds|
  {
    assert ds != [] ==> ds[0] in ds && forall r :: r in ds[1..] ==> r in ds;
    if ds == [] then 0 else ds[0].outcome + SuccessCount(ds[1..])
  }

  /** The number of records whose outcome is `o`. */
  function OutcomeCount(ds: seq<Record>, o: int): nat
  {
    if ds == [] then 0
    else (if ds[0].outcome == o then 1 else 0) + OutcomeCount(ds[1..], o)
  }

  /** With outcomes of 0 and 1 only, the outcome sum counts the successful
      launches, and the records it does not count are the failed ones. */
  lemma {:induction false} SuccessCountIsSuccesses(ds: seq<Record>)
    requires ValidOutcomes(ds)
    ensures SuccessCount(ds) == OutcomeCount(ds, 1)
    ensures |ds| - SuccessCount(ds) == OutcomeCount(ds, 0)
  {
    if ds != [] {
      assert ds[0] in ds;
      assert ValidOutcomes(ds[1..]) by {
        forall r | r in ds[1..] ensures r in ds {
          assert ds == [ds[0]] + ds[1..];
        }
      }
      SuccessCountIsSuccesses(ds[1..]);
    }
  }

  /** `spacex_df[spacex_df['Launch Site'] == site]`: the records of one site,
      in dataset order. */
  function AtSite(ds: seq<Record>, site: string): (kept: seq<Record>)
    ensures forall r :: r in kept <==> r in ds && r.site == site
    ensures |kept| <= |ds|
  {
    if ds == [] then []
    else
      assert ds == [ds[0]] + ds[1..];
      if ds[0].site == site then [ds[0]] + AtSite(ds[1..], site)
      else AtSite(ds[1..], site)
  }

  /** The site mask keeps every matching row as often as it occurs, so two
      identical rows both count. */
  lemma {:induction false} AtSiteKeepsDuplicates(ds: seq<Record>, site: string)
    ensures forall r :: multiset(AtSite(ds, site))[r] == if r.site == site then multiset(ds)[r] else 0
  {
    if ds != [] {
      assert ds == [ds[0]] + ds[1..];
      assert multiset(ds) == multiset{ds[0]} + multiset(ds[1..]);
      AtSiteKeepsDuplicates(ds[1..], site);
    }
  }

  // ---------------------------------------------------------------------
  // Success pie chart, single-site branch

  /** The pie chart data for one site: its successes and its failures, in
      that fixed order. */
  function SiteSummary(ds: seq<Record>, site: string): (s: Summary)
    ensures s.labels == ["Successful Launches", "Failed Launches"]
    ensures |s.values| == 2
    ensures s.values[0] + s.values[1] == |AtSite(ds, site)|
  {
    var launches := AtSite(ds, site);
    var successes := SuccessCount(launches);
    Summary(["Successful Launches", "Failed Launches"], [successes, |launches| - successes])
  }

  /** Successes and failures partition the launches of the site: the first
      value counts its successful launches, the second its failed ones. */
  lemma {:induction false} SiteSummaryPartition(ds: seq<Record>, site: string)
    requires ValidOutcomes(ds)
    ensures SiteSummary(ds, site).values[0] == OutcomeCount(AtSite(ds, site), 1)
    ensures SiteSummary(ds, site).values[1] == OutcomeCount(AtSite(ds, site), 0)
  {
    SuccessCountIsSuccesses(AtSite(ds, site));
  }

  /** A site that no record names is not an error: both values are zero. */
  lemma {:induction false} SiteSummaryUnknownSite(ds: seq<Record>, site: string)
    requires forall r :: r in ds ==> r.site != site
    ensures SiteSummary(ds, site).values == [0, 0]
  {
    var launches := AtSite(ds, site);
    if launches != [] {
      assert launches[0] in launches;
    }
  }

  // ---------------------------------------------------------------------
  // Success pie chart, all-sites branch

  /** Some record names `site`. */
  predicate HasSite(ds: seq<Record>, site: string)
  {
    exists r :: r in ds && r.site == site
  }

  /** The group keys of `groupby(['Launch Site'])`: every site of the dataset
      once, in sorted order. */
  function SiteKeys(ds: seq<Record>): (keys: seq<string>)
    ensures StrictlySorted(keys)
    ensures forall s :: s in keys <==> HasSite(ds, s)
  {
    if ds == [] then []
    else
      assert ds == [ds[0]] + ds[1..];
      Insert(SiteKeys(ds[1..]), ds[0].site)
  }

  /** `groupby(['Launch Site']).sum()` followed by `reset_index`: row `i`
      holds the `i`-th key and the outcome sum of that key's records. */
  function GroupBySite(ds: seq<Record>): seq<(string, int)>
  {
    var keys := SiteKeys(ds);
    seq(|keys|, i requires 0 <= i < |keys| => (keys[i], SuccessCount(AtSite(ds, keys[i]))))
  }

  /** The grouped frame has one row per site of the dataset, sorted by site,
      and each row's sum is the success count of that site's records. */
  lemma GroupBySiteRows(ds: seq<Record>)
    ensures forall i, j :: 0 <= i < j < |GroupBySite(ds)| ==> Less(GroupBySite(ds)[i].0, GroupBySite(ds)[j].0)
    ensures forall s :: (exists i :: 0 <= i < |GroupBySite(ds)| && GroupBySite(ds)[i].0 == s) <==> HasSite(ds, s)
    ensures forall i :: 0 <= i < |GroupBySite(ds)| ==>
              GroupBySite(ds)[i].1 == SuccessCount(AtSite(ds, GroupBySite(ds)[i].0))
  {
    var keys, groups := SiteKeys(ds), GroupBySite(ds);
    forall s | HasSite(ds, s) ensures exists i :: 0 <= i < |groups| && groups[i].0 == s {
      var i :| 0 <= i < |keys| && keys[i] == s;
      assert groups[i].0 == s;
    }
  }

  /** The sum of a list of values. */
  function Sum(values: seq<int>): int
  {
    if values == [] then 0 else values[0] + Sum(values[1..])
  }

  /** The outcome sums of the given sites, added up. */
  function SiteTotals(ds: seq<Record>, keys: seq<string>): int
  {
    if keys == [] then 0 else SuccessCount(AtSite(ds, keys[0])) + SiteTotals(ds, keys[1..])
  }

  /** A list of per-site values adds up to the sites' totals. */
  lemma {:induction false} SumOfSiteValues(ds: seq<Record>, keys: seq<string>, values: seq<int>)
    requires |values| == |keys|
    requires forall i :: 0 <= i < |keys| ==> values[i] == SuccessCount(AtSite(ds, keys[i]))
    ensures Sum(values) == SiteTotals(ds, keys)
  {
    if keys != [] {
      SumOfSiteValues(ds, keys[1..], values[1..]);
    }
  }

  /** Adding one record in front adds its outcome to the totals exactly when
      its site is one of the (distinct) keys. */
  lemma {:induction false} SiteTotalsCons(x: Record, rest: seq<Record>, keys: seq<string>)
    requires Distinct(keys)
    ensures SiteTotals([x] + rest, keys) == (if x.site in keys then x.outcome else 0) + SiteTotals(rest, keys)
  {
    if keys != [] {
      assert ([x] + rest)[1..] == rest;
      assert Distinct(keys[1..]) by {
        forall i, j | 0 <= i < j < |keys[1..]| ensures keys[1..][i] != keys[1..][j] {
          assert keys[1..][i] == keys[i + 1] && keys[1..][j] == keys[j + 1];
        }
      }
      assert x.site == keys[0] ==> x.site !in keys[1..];
      assert keys == [keys[0]] + keys[1..];
      SiteTotalsCons(x, rest, keys[1..]);
    }
  }

  /** Without records every site's outcome sum is zero. */
  lemma {:induction false} NoRecordsNoTotals(keys: seq<string>)
    ensures SiteTotals([], keys) == 0
  {
    if keys != [] {
      NoRecordsNoTotals(keys[1..]);
    }
  }

  /** Summing the per-site outcome sums over distinct keys that cover every
      site of the dataset gives the outcome sum of the whole dataset. */
  lemma {:induction false} SiteTotalsConserve(ds: seq<Record>, keys: seq<string>)
    requires Distinct(keys)
    requires forall r :: r in ds ==> r.site in keys
    ensures SiteTotals(ds, keys) == SuccessCount(ds)
  {
    if ds != [] {
      assert ds == [ds[0]] + ds[1..];
      assert ds[0] in ds;
      SiteTotalsCons(ds[0], ds[1..], keys);
      SiteTotalsConserve(ds[1..], keys);
    } else {
      NoRecordsNoTotals(keys);
    }
  }

  /** Across all sites, the per-site success counts add up to the number of
      successes in the whole dataset. */
  lemma AllSitesConservation(ds: seq<Record>)
    ensures SiteTotals(ds, SiteKeys(ds)) == SuccessCount(ds)
  {
    var keys := SiteKeys(ds);
    SortedIsDistinct(keys);
    forall r | r in ds ensures r.site in keys {
      assert HasSite(ds, r.site);
    }
    SiteTotalsConserve(ds, keys);
  }

  /** Lists copied row by row from the grouped frame hold the sorted
      distinct sites, each with its success count, adding up to the total. */
  lemma GroupedLists(ds: seq<Record>, labels: seq<string>, values: seq<int>)
    requires |labels| == |values| == |GroupBySite(ds)|
    requires forall k :: 0 <= k < |labels| ==>
               labels[k] == GroupBySite(ds)[k].0 && values[k] == GroupBySite(ds)[k].1
    ensures StrictlySorted(labels)
    ensures forall s :: s in labels <==> HasSite(ds, s)
    ensures forall i :: 0 <= i < |labels| ==> values[i] == SuccessCount(AtSite(ds, labels[i]))
    ensures Sum(values) == SuccessCount(ds)
  {
    var groups := GroupBySite(ds);
    GroupBySiteRows(ds);
    forall s | HasSite(ds, s) ensures s in labels {
      var i :| 0 <= i < |groups| && groups[i].0 == s;
      assert labels[i] == s;
    }
    assert StrictlySorted(labels) by {
      forall i, j | 0 <= i < j < |labels| ensures Less(labels[i], labels[j]) {
        assert labels[i] == groups[i].0 && labels[j] == groups[j].0;
      }
    }
    forall r | r in ds ensures r.site in labels {
      assert HasSite(ds, r.site);
    }
    SortedIsDistinct(labels);
    SumOfSiteValues(ds, labels, values);
    SiteTotalsConserve(ds, labels);
  }

  /** The all-sites branch: walks the grouped rows by index label and
      appends each site and its success count to `labels` and `values`. */
  method AllSitesSummary(ds: seq<Record>) returns (summary: Summary)
    ensures |summary.values| == |summary.labels|
    ensures StrictlySorted(summary.labels)
    ensures forall s :: s in summary.labels <==> HasSite(ds, s)
    ensures forall i :: 0 <= i < |summary.labels| ==>
              summary.values[i] == SuccessCount(AtSite(ds, summary.labels[i]))
    ensures Sum(summary.values) == SuccessCount(ds)
  {
    var groups := GroupBySite(ds);
    var labels: seq<string> := [];
    var values: seq<int> := [];
    for i := 0 to |groups|
      invariant |labels| == |values| == i
      invariant forall k :: 0 <= k < i ==> labels[k] == groups[k].0 && values[k] == groups[k].1
    {
      labels := labels + [groups[i].0];
      values := values + [groups[i].1];
    }
    summary := Summary(labels, values);
    GroupedLists(ds, labels, values);
  }

  /** `update_success_pie_chart`: the pie chart data for the selected site. */
  method UpdateSuccessPieChart(ds: seq<Record>, launchSite: string) returns (summary: Summary)
    ensures launchSite == AllSites ==>
              |summary.values| == |summary.labels| &&
              StrictlySorted(summary.labels) &&
              Distinct(summary.labels) &&
              (forall s :: s in summary.labels <==> HasSite(ds, s)) &&
              (forall i :: 0 <= i < |summary.labels| ==>
                 summary.values[i] == SuccessCount(AtSite(ds, summary.labels[i]))) &&
              Sum(summary.values) == SuccessCount(ds)
    ensures launchSite != AllSites ==>
              summary.labels == ["Successful Launches", "Failed Launches"] &&
              |summary.values| == 2 &&
              summary.values[0] == SuccessCount(AtSite(ds, launchSite)) &&
              summary.values[0] + summary.values[1] == |AtSite(ds, launchSite)|
  {
    if launchSite == AllSites {
      summary := AllSitesSummary(ds);
      SortedIsDistinct(summary.labels);
    } else {
      summary := SiteSummary(ds, launchSite);
    }
  }

  // ---------------------------------------------------------------------
  // Payload scatter chart

  /** The boolean mask of `update_success_payload_scatter_chart`: the range
      test alone for all sites, the site test and the range test otherwise. */
  predicate Shown(r: Record, launchSite: string, lo: real, hi: real)
  {
    if launchSite == AllSites then lo <= r.mass && r.mass <= hi
    else r.site == launchSite && lo <= r.mass && r.mass <= hi
  }

  /** `update_success_payload_scatter_chart`: the records plotted for the
      selected site and the slider range `[lo, hi]`, in dataset order. */
  function Scatter(ds: seq<Record>, launchSite: string, lo: real, hi: real): (kept: seq<Record>)
    ensures forall r :: r in kept <==>
              r in ds && (launchSite == AllSites || r.site == launchSite) && lo <= r.mass <= hi
    ensures lo > hi ==> kept == []
    ensures |kept| <= |ds|
  {
    if ds == [] then []
    else
      assert ds == [ds[0]] + ds[1..];
      if Shown(ds[0], launchSite, lo, hi) then [ds[0]] + Scatter(ds[1..], launchSite, lo, hi)
      else Scatter(ds[1..], launchSite, lo, hi)
  }

  /** Every row that passes the mask is plotted as often as it occurs. */
  lemma {:induction false} ScatterKeepsDuplicates(ds: seq<Record>, launchSite: string, lo: real, hi: real)
    ensures forall r :: multiset(Scatter(ds, launchSite, lo, hi))[r] ==
              if (launchSite == AllSites || r.site == launchSite) && lo <= r.mass <= hi
              then multiset(ds)[r] else 0
  {
    if ds != [] {
      assert ds == [ds[0]] + ds[1..];
      assert multiset(ds) == multiset{ds[0]} + multiset(ds[1..]);
      ScatterKeepsDuplicates(ds[1..], launchSite, lo, hi);
    }
  }

  /** `a` is `b` with some elements left out, the rest in the same order. */
  predicate IsSubsequence(a: seq<Record>, b: seq<Record>)
    decreases |b|
  {
    a == [] || (b != [] && ((a[0] == b[0] && IsSubsequence(a[1..], b[1..])) || IsSubsequence(a, b[1..])))
  }

  lemma {:induction false} SubsequenceLength(a: seq<Record>, b: seq<Record>)
    requires IsSubsequence(a, b)
    ensures |a| <= |b|
    decreases |b|
  {
    if a != [] {
      if a[0] == b[0] && IsSubsequence(a[1..], b[1..]) {
        SubsequenceLength(a[1..], b[1..]);
      } else {
        SubsequenceLength(a, b[1..]);
      }
    }
  }

  /** The plotted records keep their relative dataset order. */
  lemma {:induction false} ScatterIsSubsequence(ds: seq<Record>, launchSite: string, lo: real, hi: real)
    ensures IsSubsequence(Scatter(ds, launchSite, lo, hi), ds)
  {
    if ds != [] {
      ScatterIsSubsequence(ds[1..], launchSite, lo, hi);
    }
  }

  /** A mask that lets through at least what another lets through plots a
      superset of its records, in the same order. */
  lemma {:induction false} ScatterRefines(ds: seq<Record>, site1: string, lo1: real, hi1: real,
                                          site2: string, lo2: real, hi2: real)
    requires forall r :: r in ds && Shown(r, site1, lo1, hi1) ==> Shown(r, site2, lo2, hi2)
    ensures IsSubsequence(Scatter(ds, site1, lo1, hi1), Scatter(ds, site2, lo2, hi2))
  {
    if ds != [] {
      assert ds == [ds[0]] + ds[1..];
      ScatterRefines(ds[1..], site1, lo1, hi1, site2, lo2, hi2);
    }
  }

  /** Widening the payload range never removes a plotted record. */
  lemma {:induction false} ScatterWiden(ds: seq<Record>, launchSite: string, lo: real, hi: real,
                                        lo': real, hi': real)
    requires lo' <= lo && hi <= hi'
    ensures IsSubsequence(Scatter(ds, launchSite, lo, hi), Scatter(ds, launchSite, lo', hi'))
    ensures |Scatter(ds, launchSite, lo, hi)| <= |Scatter(ds, launchSite, lo', hi')|
  {
    ScatterRefines(ds, launchSite, lo, hi, launchSite, lo', hi');
    SubsequenceLength(Scatter(ds, launchSite, lo, hi), Scatter(ds, launchSite, lo', hi'));
  }

  /** For the same range, one site's points are among the all-sites points,
      in the same order. */
  lemma {:induction false} ScatterSiteWithinAll(ds: seq<Record>, launchSite: string, lo: real, hi: real)
    ensures IsSubsequence(Scatter(ds, launchSite, lo, hi), Scatter(ds, AllSites, lo, hi))
  {
    ScatterRefines(ds, launchSite, lo, hi, AllSites, lo, hi);
  }

  /** A mask that every record passes plots the whole dataset. */
  lemma {:induction false} ScatterKeepsAll(ds: seq<Record>, launchSite: string, lo: real, hi: real)
    requires forall r :: r in ds ==> Shown(r, launchSite, lo, hi)
    ensures Scatter(ds, launchSite, lo, hi) == ds
  {
    if ds != [] {
      assert ds == [ds[0]] + ds[1..];
      ScatterKeepsAll(ds[1..], launchSite, lo, hi);
    }
  }

  /** With the slider's initial range `[min, max]` of the payload column and
      all sites selected, every record is plotted. */
  lemma {:induction false} DefaultRangeKeepsAll(ds: seq<Record>, lo: real, hi: real)
    requires MinPayload(ds) == Some(lo) && MaxPayload(ds) == Some(hi)
    ensures Scatter(ds, AllSites, lo, hi) == ds
  {
    ScatterKeepsAll(ds, AllSites, lo, hi);
  }
}
