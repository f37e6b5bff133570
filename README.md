# Supermarket sales dashboard: filtering and aggregation engine

This project models the computation behind the Streamlit page in
`supermarket_dashboard/app.py`. The page loads the sales frame and adds a
Revenue column (unit price times quantity). The sidebar offers a date range
and four multiselects (store region, category, customer type, promo flag),
populated from the frame's date bounds and the sorted distinct values of each
column. The page then filters the frame with a boolean mask. From the filtered
view it computes four KPI metrics (total revenue, distinct transactions, items
sold, average revenue per transaction). It also builds four grouped revenue
tables: by date, by category, by promo flag and by payment method.

The model is pure, as the script is: the data frame is a `seq<Record>`, and
each value the script builds from one pandas expression is a Dafny function.

- `Records`: the `Record` datatype (one CSV line after loading) and the derived
  revenue. Dates are day numbers and money is integer cents.
- `Ordering`: pandas `unique` (first-appearance de-duplication), a comparison
  sort used for Python `sorted` and pandas `sort_values`, and Python's
  code-point order on strings.
- `Store`: the date bounds and the sorted option lists.
- `FilterEngine`: the sidebar selection, the five-way mask and `df[mask]`.
- `Metrics`: the KPI row.
- `Aggregator`: `groupby(key)["Revenue"].sum()`, with the sorts the script
  applies, and the predicate `IsRevenueTable` that states what such a table is.
- `Dashboard`: one refresh of the page for one selection.

Three points of the code's behaviour shape the contracts:

- Ties between equal-revenue rows: `sort_values` uses pandas' default
  quicksort, which is not stable, so the contracts only say that revenue never
  increases down the table.
- The promo table is ordered by ascending flag, because `groupby` sorts its
  keys by default. Its revenue-share percentages are computed by the plotting
  library, not by this code, so they are not modelled.
- The code does not check start <= end; an inverted range yields an empty
  view.

## Model

| member | source | states |
|---|---|---|
| `Records.Revenue` | supermarket_dashboard/app.py:14 | a record's revenue is non-negative when its price and quantity are, and zero when either is zero |
| `Store.DateBounds` | supermarket_dashboard/app.py:27-28 | none exactly for an empty frame; otherwise both bounds are dates of some record and every record's date lies between them |
| `Store.SortedDistinct` | supermarket_dashboard/app.py:36-39 | for a total and transitive comparison, the group/option keys of a column are ascending, duplicate-free, and exactly the values occurring in that column |
| `Store.Options` | supermarket_dashboard/app.py:36-39 | each option list is ascending in Python string order, has no duplicates, and contains exactly the values that occur in its column |
| `Ordering.Unique` | supermarket_dashboard/app.py:36-39 | `unique()` yields each value of the column once and no other value |
| `Ordering.SortBy` | supermarket_dashboard/app.py:36-39 | sorting is a permutation of its input (same multiset, same length) |
| `Ordering.SortAscending` | supermarket_dashboard/app.py:36-39 | the sort's result is ordered whenever the comparison is total and transitive |
| `Ordering.SortNoDups` | supermarket_dashboard/app.py:36-39 | sorting a duplicate-free list leaves it duplicate-free |
| `Ordering.SortMembers` | supermarket_dashboard/app.py:36-39 | sorting keeps exactly the elements it is given |
| `Ordering.TextLe` | supermarket_dashboard/app.py:36-39 | Python's `<=` on `str`, the order of the option lists and of text `groupby` keys (l.90, 100, 106): code point by code point, with a prefix before any longer string |
| `Ordering.TextLeAntisymmetric` | supermarket_dashboard/app.py:36-39 | only equal strings are ordered both ways, so a sorted option list is unique |
| `Ordering.TextLeTotal` | supermarket_dashboard/app.py:36-39 | any two strings are comparable in Python's order |
| `Ordering.TextLeTransitive` | supermarket_dashboard/app.py:36-39 | Python's string order is transitive |
| `Ordering.TextLeIsTotalPreorder` | supermarket_dashboard/app.py:36-39 | Python's string order is a total preorder, so `sorted` on strings is well defined |
| `FilterEngine.Matches` | supermarket_dashboard/app.py:50-55 | the five-way mask at one record; it can hold only when the date range is not inverted and no multiselect is empty |
| `FilterEngine.Apply` | supermarket_dashboard/app.py:49-56 | a record is in the view iff it is in the frame and its date is within [start, end] (both ends inclusive) and its region, category, customer type and promo flag are each in the selected set; the view is never longer than the frame |
| `FilterEngine.ApplyIsMaskSelection` | supermarket_dashboard/app.py:49-56 | the view is the frame read at a strictly increasing list of positions, and those are exactly the positions where the mask holds (order-preserving subsequence) |
| `FilterEngine.ApplyMultiplicity` | supermarket_dashboard/app.py:49-56 | every matching record occurs in the view exactly as often as in the frame, and every other record not at all |
| `FilterEngine.ApplyIdempotent` | supermarket_dashboard/app.py:49-56 | filtering the view again with the same selection yields the same view |
| `FilterEngine.ApplyAllMatch` | supermarket_dashboard/app.py:49-56 | when every record passes the mask the view is the whole frame, in order |
| `FilterEngine.EmptySelectionEmptyView` | supermarket_dashboard/app.py:50-55 | an empty region, category, customer-type or promo selection, or an inverted date range, yields an empty view |
| `FilterEngine.DefaultSelection` | supermarket_dashboard/app.py:27-44 | the initial sidebar state exists exactly for a non-empty frame; every record's date lies within its range, and each multiselect holds exactly the values of its column |
| `FilterEngine.DefaultRangeIsDateBounds` | supermarket_dashboard/app.py:27-31 | the default date range is the frame's date bounds, so it runs from the earliest to the latest date |
| `FilterEngine.DefaultSelectionMatches` | supermarket_dashboard/app.py:27-44 | every record of a frame passes the mask of that frame's default selection |
| `FilterEngine.DefaultSelectionMatchesAll` | supermarket_dashboard/app.py:27-56 | the whole frame passes the mask of its default selection |
| `FilterEngine.DefaultSelectionKeepsAll` | supermarket_dashboard/app.py:27-56 | the default selection (full date range, every option selected) exists exactly for a non-empty frame, and with it the view equals the whole frame |
| `Metrics.TotalRevenue` | supermarket_dashboard/app.py:61 | total revenue is 0 for an empty view and never negative when no price or quantity is |
| `Metrics.ItemsSold` | supermarket_dashboard/app.py:63 | items sold is 0 for an empty view and never negative when no quantity is |
| `Metrics.TransactionIds` | supermarket_dashboard/app.py:62 | the transaction ids of the view are exactly the ids of its records; there are at most as many ids as records, and none only for an empty view |
| `Metrics.NumTransactions` | supermarket_dashboard/app.py:62 | `nunique()` of the ids: at most the number of lines, and 0 exactly for an empty view |
| `Metrics.DistinctIdsCountLines` | supermarket_dashboard/app.py:62 | when no two lines share an id, the count is the number of lines |
| `Metrics.SharedIdCountsOnce` | supermarket_dashboard/app.py:62 | a further line of a transaction already in the view leaves the count unchanged |
| `Metrics.AvgRevenuePerTransaction` | supermarket_dashboard/app.py:64 | the average is exactly 0 when there are no transactions and otherwise times the count gives the total revenue |
| `Metrics.ComputeMetrics` | supermarket_dashboard/app.py:61-64 | the KPI row: the revenue and quantity sums, the transaction count equal to the number of distinct ids (at most the number of records, 0 exactly for an empty view), the zero-guarded average, and all zeros on an empty view |
| `Metrics.TotalRevenueAppend` | supermarket_dashboard/app.py:61 | total revenue adds over a concatenation of views |
| `Metrics.ItemsSoldAppend` | supermarket_dashboard/app.py:63 | items sold adds over a concatenation of views |
| `Metrics.MetricsNonNegative` | supermarket_dashboard/app.py:61-64 | with non-negative prices and quantities, total revenue, items sold and the average are non-negative |
| `Aggregator.Group` | supermarket_dashboard/app.py:81 | a group holds exactly the view's records with that key, each as many times as in the view; it is the whole view when every record has the key |
| `Aggregator.GroupRevenue` | supermarket_dashboard/app.py:81-82 | a group's summed revenue: 0 for a key no record has, the view's total when every record has the key, never negative when no price or quantity is |
| `Aggregator.Rows` | supermarket_dashboard/app.py:81-82 | one row per listed key, in that order, holding the revenue of that key's group |
| `Aggregator.GroupsPartitionRevenue` | supermarket_dashboard/app.py:80-109 | grouping is a partition: when every key of the view is listed once, the group sums add up to the view's total revenue |
| `Aggregator.RowsAreRevenueTable` | supermarket_dashboard/app.py:80-109 | rows over the view's distinct keys are a revenue table: one row per key present and no other, each value its group's revenue, values summing to the total |
| `Aggregator.SortKeepsRevenueTable` | supermarket_dashboard/app.py:92 | reordering a revenue table by `sort_values` leaves a revenue table of the same view |
| `Aggregator.EmptyViewEmptyTable` | supermarket_dashboard/app.py:80-109 | an empty view has an empty table for every key |
| `Aggregator.RevenueByDay` | supermarket_dashboard/app.py:80-84 | `rev_by_day` is a revenue table keyed by date, strictly ascending by date |
| `Aggregator.KeySorted` | supermarket_dashboard/app.py:100 | a text-keyed `groupby().sum()` is a revenue table in ascending key order |
| `Aggregator.RevenueSorted` | supermarket_dashboard/app.py:89-93 | the same table after a descending revenue sort is a revenue table whose revenue never increases |
| `Aggregator.RevenueAtLeastIsTotalPreorder` | supermarket_dashboard/app.py:92 | the comparison of `sort_values("Revenue", ascending=False)` (l.92, 108), `a.revenue >= b.revenue`, is total and transitive, so the descending sort is well defined |
| `Aggregator.RevenueByCategory` | supermarket_dashboard/app.py:89-93 | `rev_by_cat` is a revenue table keyed by category, revenue non-increasing down the table |
| `Aggregator.PromoSplit` | supermarket_dashboard/app.py:100 | `promo_split` is a revenue table keyed by promo flag, in ascending flag order |
| `Aggregator.PaymentSplit` | supermarket_dashboard/app.py:105-109 | `pay_split` is a revenue table keyed by payment method, revenue non-increasing down the table |
| `Dashboard.Refresh` | supermarket_dashboard/app.py:49-109 | the view is the masked frame in frame order; the KPI row is computed from that view; each of the four tables is the revenue table of the view for its key, ordered as its chart is (by date, by non-increasing revenue, by flag, by non-increasing revenue), and each adds up to the Total Revenue metric |
| `Dashboard.EmptySelectionPage` | supermarket_dashboard/app.py:49-109 | an empty multiselect or inverted range gives an empty view, all-zero metrics and four empty tables |
| `Dashboard.RefreshIdempotent` | supermarket_dashboard/app.py:49-109 | refreshing on the page's own view with the same selection gives the same page |

## Left out

- Streamlit page and widget calls (page config, title, sidebar, `date_input`, `multiselect`, columns, metric cards, divider, data-frame display): presentation only. While only one date of the range is picked, `date_input` returns a one-element tuple, `date_range[1]` at app.py:47 raises IndexError and the page does not render; the model always has both dates.
- The Plotly charts, including the promo pie's revenue-share percentages, which the plotting library computes: a foreign library.
- Reading `supermarket.csv`, `pd.to_datetime` and the `@st.cache_data` cache: I/O, a foreign parser and hidden state. The loaded frame is a `seq<Record>` parameter. Dates are day numbers. Promo_Applied is kept as text; `False < True` and `"False" < "True"` give the same option order.
- Load-time errors (missing file or columns, unparseable fields): they belong to the excluded loader.
- Floating-point sums and the float division in the average: money is exact integer cents and the average is an exact `real`.
- Currency and thousands formatting of the metric cards: presentation only.
- Missing values are outside the modelled inputs: every record here has all fields. A missing Store_Region, Category or Customer_Type (or Promo_Applied, when that column loads as text) makes `sorted(df[c].unique())` at app.py:36-39 compare a float NaN with strings and raise TypeError. Elsewhere pandas skips missing values silently: `groupby` drops a NaN key, so e.g. `pay_split` no longer adds up to the total; `nunique()` ignores a missing Transaction_ID; `sum()` skips NaN. The model does not capture this.
- The display re-sort of the filtered table by descending date: presentation order.
- `sort_values("Date")` after the date `groupby`: `groupby` already returns its keys in ascending order, so this sort changes nothing and is not a separate step.
- Aggregator.RevenueByCategory: does not fix the order of rows with equal revenue, because pandas' default sort is not stable.
- Aggregator.PaymentSplit: does not fix the order of rows with equal revenue, for the same reason.
