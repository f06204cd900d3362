# SpaceX launch records dashboard — data layer

A Dafny model of the logic behind the two Dash callbacks in
`spacex_dash_app.py`. The dashboard holds a fixed dataset of launch records.
Each record has a launch site, a payload mass, an outcome `class` (1 for a
successful launch, 0 for a failed one) and a booster version category.

- `update_success_pie_chart` builds the `labels`/`values` lists of the
  success pie chart.
  - With the dropdown value `'All Sites'`, the records are grouped by site.
    The chart gets one (site, sum of `class`) pair per site.
  - With any other value, the chart gets exactly two pairs: the site's
    successful launches, then its failed launches.
- `update_success_payload_scatter_chart` picks the records plotted on the
  payload/outcome scatter chart. It keeps the records whose mass lies in the
  slider's closed range `[lo, hi]`. For a specific site, it also requires the
  record's site to match.
- The slider's initial range is the minimum and maximum of the payload
  column.

Files:

- `StringOrder.dfy`: the code-point lexicographic order on strings. The group
  keys of `groupby` come out in this order. It also defines sorted insertion of
  a key.
- `Launches.dfy`: the `Record` datatype, the 0/1 outcome invariant, and the
  payload maximum and minimum.
- `Dashboard.dfy`: both callbacks, with the lemmas about them.

The dataset is a parameter of every operation, a `seq<Record>`. Payload mass
is a `real`. It is only ever compared, never computed with.

All-sites order: line 78 sorts the grouped frame in place by descending
`class`. However, lines 82-83 read `df['Launch Site'][i]` and `df['class'][i]`
by index label. After the `reset_index` at line 77, those labels number the
groups in key order. So the lists come out in site-name order, not in
descending success order. The model therefore gives the labels as the sorted
distinct sites, each paired with its own success count, and does not claim a
descending order.

## Model

| member | source | states |
|---|---|---|
| Launches.MaxPayload | spacex_dash_app.py:12 | The result is None exactly for an empty dataset (pandas gives NaN there). Otherwise it is the mass of some record, and no record is heavier. |
| Launches.MinPayload | spacex_dash_app.py:13 | The result is None exactly for an empty dataset. Otherwise it is the mass of some record, and no record is lighter. |
| Launches.PayloadBoundsOrdered | spacex_dash_app.py:12-13 | On a non-empty dataset the minimum is at most the maximum, so the slider's default range is never empty. |
| Dashboard.SuccessCount | spacex_dash_app.py:89 | `df['class'].sum()`. With 0/1 outcomes the sum lies between zero and the number of records. |
| Dashboard.SuccessCountIsSuccesses | spacex_dash_app.py:89-92 | With 0/1 outcomes, the sum of `class` is the number of successful records. The count minus that sum is the number of failed records. |
| Dashboard.AtSite | spacex_dash_app.py:88 | A record is kept iff it is in the dataset and its site equals the selected one. The result is no longer than the dataset. |
| Dashboard.AtSiteKeepsDuplicates | spacex_dash_app.py:88 | Every matching row is kept as often as it occurs in the dataset, and no other row is kept, so identical rows are all counted. |
| Dashboard.SiteSummary | spacex_dash_app.py:88-92 | The labels are exactly "Successful Launches" then "Failed Launches". There are two values, and they add up to the number of records at the site. |
| Dashboard.SiteSummaryPartition | spacex_dash_app.py:89-92 | With 0/1 outcomes, the first value is the site's count of successful launches and the second its count of failed launches. |
| Dashboard.SiteSummaryUnknownSite | spacex_dash_app.py:88-92 | A site that no record names yields the values [0, 0], not an error. |
| Dashboard.SiteKeys | spacex_dash_app.py:76-77 | The group keys are strictly sorted (so each appears once). A string is a key iff some record has that site. |
| Dashboard.GroupBySiteRows | spacex_dash_app.py:76-77 | Describes `GroupBySite`, the frame after `groupby(['Launch Site']).sum()` and `reset_index`. Its rows are sorted by site name. A site has a row iff some record names it. Each row's sum is the success count of that site's records. |
| Dashboard.GroupedLists | spacex_dash_app.py:81-83 | Lists copied row by row from the grouped frame hold the sorted distinct sites, each paired with its own success count. The values add up to the dataset's total successes. |
| Dashboard.SiteTotalsConserve | spacex_dash_app.py:76 | Take distinct keys that cover every record's site. The per-key outcome sums then add up to the outcome sum of the whole dataset. |
| Dashboard.AllSitesConservation | spacex_dash_app.py:75-83 | The success counts of all group keys add up to the total number of successes in the dataset. |
| Dashboard.AllSitesSummary | spacex_dash_app.py:74-83 | There are as many values as labels. The labels are the distinct dataset sites in key order: a string is a label iff some record has that site. Each value is the success count of its own label's records. The values add up to the dataset's total successes. |
| Dashboard.UpdateSuccessPieChart | spacex_dash_app.py:73-96 | For 'All Sites': one pair per distinct site, in sorted site order (as lines 82-83 read them), each paired with its success count, with the values summing to the dataset's successes. For any other site: exactly the two fixed labels, the successes first, and successes plus failures equal to the site's record count. |
| Dashboard.Scatter | spacex_dash_app.py:107-117 | Applies the mask `Shown` of lines 109 and 114. A record is plotted iff it is in the dataset, `lo <= mass <= hi` (both ends inclusive), and the selector is 'All Sites' or equals the record's site. If `lo > hi`, nothing is plotted. |
| Dashboard.ScatterKeepsDuplicates | spacex_dash_app.py:108-114 | Every row that passes the mask is plotted as often as it occurs in the dataset, and no other row is plotted. |
| Dashboard.ScatterIsSubsequence | spacex_dash_app.py:108-114 | The plotted records are a subsequence of the dataset: the mask keeps dataset order. |
| Dashboard.ScatterRefines | spacex_dash_app.py:108-114 | If every record that passes one mask also passes a second, the first mask's plot is a subsequence of the second's. |
| Dashboard.ScatterWiden | spacex_dash_app.py:109-114 | Widening `[lo, hi]` never removes a plotted record. The narrower plot is a subsequence of the wider one and is no longer. |
| Dashboard.ScatterSiteWithinAll | spacex_dash_app.py:108-114 | For the same range, one site's plot is a subsequence of the 'All Sites' plot. |
| Dashboard.ScatterKeepsAll | spacex_dash_app.py:109-114 | A mask that every record passes plots the whole dataset, unchanged. |
| Dashboard.DefaultRangeKeepsAll | spacex_dash_app.py:60 | Set the slider to its initial range `[min, max]` of the payload column (lines 12-13) and select 'All Sites'. Then every record is plotted, in dataset order (line 109). |

## Left out

- Reading `spacex_launch_dash.csv` (line 11) is file I/O. The dataset is a parameter instead.
- The Dash application, its layout, dropdown options, slider marks and step, the callback wiring and `app.run_server()` (lines 16-65, 69-72, 100-104, 120-121) are user-interface and HTTP plumbing.
- Figure construction, titles, colours and `update_traces` (lines 84-85, 93-95, 110-111, 115-116) are rendering calls into Plotly. The model returns only the labels/values lists and the plotted records.
- The in-place `sort_values` at line 78 is not modelled. The lookups at lines 82-83 go by index label, so the sort does not change the lists that are produced.
- `groupby(...).sum()` also sums the payload column and combines the string columns. Only the `class` sum is used, so only that sum is modelled.
- The plotted records are not projected onto (mass, class, category). The callback hands the whole filtered frame to `px.scatter`, and the model returns it whole too.
- The dropdown value is a string. If the dropdown is cleared and sends `None`, the result is an empty selection, and that case is not modelled.
- Calling either callback twice with the same arguments gives the same result. For the functions this holds by construction. For the methods it holds because their contracts fix the result completely: the labels are the sorted distinct sites, and each value is determined by its label.
