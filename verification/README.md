# Sales table pipeline — a Dafny model

Two Streamlit pages read a semicolon-separated sales file and turn it into
filtered tables, KPIs and charts. This project models the data logic of both
pages. Widgets, the CSV reader and plotting are not modelled.

- **Flexible charts page** (`Scripts/2-charts.py`).
  - Each logical role (date, product, category, customer, total value, price,
    quantity) gets an initial column. That column is the first entry of a
    fixed alias list that appears in the header, or the `"(nenhuma)"`
    sentinel.
  - A value series comes from an existing total column. Failing that, it is
    price × quantity with missing operands read as 0. Failing both, there is
    no series.
  - Rows are filtered by an inclusive date range, and then by a category.
    - The date filter runs only when the date role is mapped and some date is
      valid.
    - Choosing `"(todas)"` leaves the category filter off.
  - The series is re-aligned to the surviving rows by position.
  - Three aggregations are built, each after dropping rows with a missing key
    or value: revenue per date, the top five products, and every category
    sorted by revenue.
- **Fixed-schema dashboard** (`Scripts/3-dashboard.py`).
  - The page halts, naming the missing columns, unless seven columns are
    present.
  - `Receita`, `Custo Total` and `Lucro` are derived only when the file lacks
    them. A missing operand makes the derived amount missing.
  - Rows are filtered by a `Dia` range and by multiselects over `Loja` and
    `Tipo`. An empty selection filters nothing.
  - The page computes four KPIs, revenue per day, the top ten types and
    revenue per store.

Modules:

- `Cells` (`cells.dfy`): cells, rows and tables. It also holds the tolerant
  coercions and the NaN-skipping sum. The parsers behind `pd.to_numeric` and
  `pd.to_datetime` are a `Parsers` parameter.
- `Frames` (`frames.dfy`):
  - A filtered frame is its increasing index of surviving row positions.
  - A boolean mask is `Keep`.
  - Re-alignment through `.loc[df_f.index]` is `Select`.
- `Groups` (`groups.dfy`):
  - `groupby(...).sum()` is `GroupSum`. It is proved against a reference
    per-key sum `KeySum`.
  - `dropna(subset=...)` is `DropIncomplete`.
  - Sorting in descending order and `nlargest`/`head` are `SortDesc` and
    `TopN`.
- `Roles` (`roles.dfy`): the alias lists, `_suggest` and the initial
  selectbox index.
- `Charts` (`charts.dfy`): the flexible charts page.
- `Dashboard` (`dashboard.dfy`): the fixed-schema dashboard.

Dates are timestamps counted in nanoseconds since the epoch, as pandas
stores them. Amounts are mathematical reals.

On the charts page, a mapped date column is overwritten in place by its
parsed timestamps before anything else reads the table (`Charts.CoerceDates`).
A total, price, quantity, product or category role that names the same column
therefore sees timestamps, not the file's text.

The date widget starts at the earliest and latest valid day, and the filter
reads those back as midnights. With the widget untouched, rows of the latest
day that fall after 00:00 are filtered out (`Charts.DefaultRangeKeeps`,
`Charts.LateSaleDropped`, `Dashboard.DefaultDiaRangeKeeps`).

## Model

| member | source | states |
|---|---|---|
| `Roles.Suggest` | Scripts/2-charts.py:27-31 | Gives no suggestion exactly when no alias is a column. Otherwise the suggestion is a header column, and no earlier alias is one. |
| `Roles.DefaultChoice` | Scripts/2-charts.py:35-41 | The initial selectbox index is 0 exactly when there is no suggestion. Otherwise it points at the suggested column, which sits one place further on than in the header, because the sentinel comes first. |
| `Roles.Suggested` | Scripts/2-charts.py:35-86 | Every role of the initial mapping names a header column or the sentinel. |
| `Roles.SuggestedRoles` | Scripts/2-charts.py:35-86 | Each of the seven initial roles is the first of its aliases found in the header, or the sentinel when none is found. |
| `Roles.SuggestedExample` | Scripts/2-charts.py:64-70 | Matching is exact. With header Data, Produto, Total, the date and product roles are found, and the total role starts unmapped because no alias is spelled "Total". |
| `Charts.CoerceDates` | Scripts/2-charts.py:89-90 | With a mapped date role, the date column of every row becomes its parsed timestamp, or NaT (missing) where unreadable. Every other column and the header are unchanged. With no date role the table is unchanged. |
| `Charts.CoercedDates` | Scripts/2-charts.py:89-90 | The coerced column parses to the same dates as the original, and coercing twice is the same as coercing once. |
| `Charts.DateRoleCells` | Scripts/2-charts.py:89-90 | After coercion, the date column holds a timestamp exactly where the date parses and NaT elsewhere. A category or product role naming it therefore compares and groups timestamps. |
| `Charts.DateAsTotal` | Scripts/2-charts.py:89-95 | A total role naming the date column reads the coerced timestamps as nanosecond numbers, with NaT missing, and never the raw text. |
| `Charts.DeriveValue` | Scripts/2-charts.py:93-104 | There is a value series exactly when the total role or both price and quantity name existing columns. The series has one entry per row of the unfiltered table. A mapped total column wins, through numeric coercion. Otherwise each entry is price × quantity, with missing operands read as 0. The page applies it to the date-coerced table. |
| `Charts.TotalWins` | Scripts/2-charts.py:94-95 | Once the total column exists, the price and quantity roles do not affect the series. An entry is missing exactly when its total cell cannot be read. |
| `Charts.ProductHasNoGaps` | Scripts/2-charts.py:96-104 | The price × quantity series has no missing entry. With neither source available there is no series. |
| `Charts.FilterIndex` | Scripts/2-charts.py:107-122 | Gives an increasing index of rows of the table. A row survives exactly when its date is in the inclusive range (if the date filter runs) and its category equals the selection (if the category filter runs). |
| `Charts.NoFilterKeepsAll` | Scripts/2-charts.py:107-122 | With neither filter active, the filtered frame is the whole table in order. |
| `Charts.AllCategoriesIsNoop` | Scripts/2-charts.py:118-122 | Selecting "(todas)" keeps exactly the rows the date filter kept. |
| `Charts.DefaultRangeKeeps` | Scripts/2-charts.py:108-116 | With the default range, midnight of the earliest valid day to midnight of the latest, the filter keeps exactly the rows whose date is valid and no later than midnight of the latest day. |
| `Charts.DefaultRangeDropsOnlyMissing` | Scripts/2-charts.py:108-116 | When every valid date is a whole day (midnight), the default range drops exactly the rows without a valid date. |
| `Charts.LateSaleDropped` | Scripts/2-charts.py:108-116 | Sales at 10:00 on day 0 and 15:00 on day 1 give the default range [day 0, day 1] at midnight. The filter keeps only the first sale. |
| `Charts.FilterIdempotent` | Scripts/2-charts.py:113-122 | Re-applying either filter to the filtered rows keeps all of them. |
| `Charts.Realign` | Scripts/2-charts.py:124-128 | `valor_f` is absent exactly when `valor_series` is. Otherwise its k-th entry is the series entry at the k-th surviving row position. |
| `Charts.RealignMatchesFilteredTable` | Scripts/2-charts.py:124-128 | Re-aligning the full-table series to the surviving rows gives the series derived afresh from the filtered table, so every row keeps its own value. |
| `Charts.RevenueOverTime` | Scripts/2-charts.py:134-142 | The chart exists exactly when the date role is mapped and a series exists. Its dates are distinct and are exactly the dates of surviving rows that have both a valid date and a value. Each date's total is the sum of the aligned values of that date's rows. |
| `Charts.TopProducts` | Scripts/2-charts.py:146-155 | Shows at most five product groups, the largest revenue first. They are drawn from the full product grouping, as many as it has up to five. No product left out has more revenue than one shown. |
| `Charts.CategoryShare` | Scripts/2-charts.py:159-167 | Gives exactly the category groups, as a permutation, in non-increasing order of revenue. |
| `Charts.ChartGroupsAreSums` | Scripts/2-charts.py:136-142 | Every chart group is a key of a surviving row with a value. Its total is the sum of those rows' values. |
| `Charts.Render` | Scripts/2-charts.py:89-167 | The page's index is the filter applied to the date-coerced table. Its values are the series derived from that table, re-aligned to that index. They are absent exactly when neither value source is mapped. The revenue-over-time, top-product and category-share charts are each built from that same index and those same values. |
| `Charts.NumericColumnSelect` | Scripts/2-charts.py:95-126 | Coercing a column and then selecting rows gives the same series as selecting rows and then coercing. |
| `Groups.DropIncomplete` | Scripts/2-charts.py:138 | Keeps, in order, exactly the entries whose key and value are both present, each as often as it occurs, so duplicates survive. |
| `Groups.KeySumDrop` | Scripts/2-charts.py:138-140 | Dropping incomplete entries changes no key's sum. |
| `Groups.PresentKeysDrop` | Scripts/2-charts.py:138-140 | After dropna, the keys present are exactly the keys of entries that have both a key and a value. |
| `Groups.GroupSum` | Scripts/2-charts.py:139-140 | Group keys are distinct and are exactly the present keys. Each key's total is the reference per-key sum of present values, and there are no more groups than rows. |
| `Groups.GroupSumTotals` | Scripts/3-dashboard.py:105 | Each group in the result holds the reference sum for its own key. |
| `Groups.GroupSumConserves` | Scripts/3-dashboard.py:105 | Group totals plus the values of rows without a key add up to the sum of all present values. Nothing is lost or counted twice. |
| `Groups.ExcludesIncomplete` | Scripts/2-charts.py:138-140 | Appending a row with a missing key or a missing value leaves the dropna-then-group result unchanged. |
| `Groups.ExcludesMissing` | Scripts/3-dashboard.py:95-96 | In a plain group-sum, a row with a missing key changes nothing. Any other row adds its value, with a missing value counted as 0, to its own group only. |
| `Groups.SortDesc` | Scripts/2-charts.py:166 | The result is a permutation of the groups in non-increasing order of total. |
| `Groups.TopN` | Scripts/3-dashboard.py:97-98 | Gives min(n, number of groups) groups in non-increasing order, drawn from the input. No group left out exceeds a kept one. |
| `Frames.Keep` | Scripts/2-charts.py:116 | A boolean mask keeps, in order, only elements of the input that satisfy it, and every such element. |
| `Frames.KeepCount` | Scripts/2-charts.py:116 | A mask keeps every copy of a selected element and no copy of any other element. |
| `Frames.KeepIncreasing` | Scripts/2-charts.py:113-122 | Masking an increasing index of a table gives an increasing index of the same table. |
| `Frames.KeepCommute` | Scripts/3-dashboard.py:58-68 | Two masks applied one after the other keep the same rows in either order. |
| `Frames.KeepIdempotent` | Scripts/3-dashboard.py:61-62 | Applying a mask twice is applying it once. |
| `Frames.SelectMap` | Scripts/2-charts.py:126 | Looking up a row-wise derived series at some positions equals deriving it on the rows at those positions. |
| `Frames.SelectSelect` | Scripts/3-dashboard.py:55-68 | Filtering a filtered frame selects the composed positions of the original table. |
| `Cells.NumericColumn` | Scripts/3-dashboard.py:35-37 | Coercion keeps one entry per row. A missing cell stays missing, a number passes through, a timestamp reads as its nanosecond count, and text goes to the parser. |
| `Cells.MaxPresent` | Scripts/2-charts.py:109 | The latest valid date: it is one of the entries, and no valid entry is later. Missing entries are skipped. |
| `Cells.MinPresent` | Scripts/3-dashboard.py:50 | The earliest valid date: it is one of the entries, and no valid entry is earlier. Missing entries are skipped. |
| `Cells.DefaultRange` | Scripts/2-charts.py:109-111 | The date widget's initial range, read back as two midnights. Every valid date lies from the first midnight to the end of the last day, and each midnight starts the day of some valid date. |
| `Cells.SumPresentAppend` | Scripts/3-dashboard.py:74-76 | The NaN-skipping sum splits over concatenation. |
| `Cells.SumPresentAllMissing` | Scripts/3-dashboard.py:74-76 | A column with only missing entries sums to 0. |
| `Dashboard.MissingColumns` | Scripts/3-dashboard.py:19-28 | Lists exactly the required names absent from the header, in the order of the required list. |
| `Dashboard.MissingIff` | Scripts/3-dashboard.py:28-29 | The missing list is non-empty exactly when some required column is absent. |
| `Dashboard.Prepare` | Scripts/3-dashboard.py:19-44 | Halts exactly when a required column is absent, reporting the non-empty missing list. Otherwise it prepares every row, keeping their number and order. |
| `Dashboard.PrepareRow` | Scripts/3-dashboard.py:34-44 | Store and type pass through unchanged. `Dia` is missing when its cell is, a timestamp passes through, and any other cell (text, as a CSV gives it) goes to the date parser. Each numeric input is missing when its cell is, a number passes through, a timestamp reads as its nanosecond count, and text goes to the number parser. A `Receita`, `Custo Total` or `Lucro` column already in the file is read as a number instead of being derived. |
| `Dashboard.ReceitaRule` | Scripts/3-dashboard.py:39-40 | A derived revenue is present exactly when sale value and quantity both are, and then equals their product. A revenue column already in the file is used as it is, whatever the other columns say. |
| `Dashboard.CustoTotalAndLucroRule` | Scripts/3-dashboard.py:41-44 | A `Custo Total` or `Lucro` column already in the file is used as it is. Otherwise total cost is purchase cost × quantity, and profit is revenue − total cost, however those two were obtained. Each derived amount is present exactly when both its operands are. |
| `Dashboard.LucroIsMargin` | Scripts/3-dashboard.py:34-44 | With all three amounts derived, profit equals (sale value − purchase cost) × quantity. A missing quantity makes revenue, total cost and profit missing. |
| `Dashboard.NothingMissing` | Scripts/3-dashboard.py:28-29 | A header that has every required column reports nothing missing. |
| `Dashboard.FilterIndex` | Scripts/3-dashboard.py:48-68 | Gives an increasing index of rows. A row survives exactly when its `Dia` is in range (if any `Dia` is valid), its store is selected (if any store is), and its type is selected (if any type is). |
| `Dashboard.DefaultDiaRangeKeeps` | Scripts/3-dashboard.py:49-55 | With the default `Dia` range read back at midnight and no store or type selected, the filter keeps exactly the rows whose `Dia` is valid and no later than midnight of the latest day. |
| `Dashboard.IsinCommute` | Scripts/3-dashboard.py:58-68 | The store and type filters commute. |
| `Dashboard.IsinIdempotent` | Scripts/3-dashboard.py:61-68 | Re-applying a store or type selection changes nothing. |
| `Dashboard.ComputeKpis` | Scripts/3-dashboard.py:73-76 | The row count is the number of surviving rows. No rows give zero sums. Each further row adds its revenue, quantity and profit, a missing amount adding nothing. |
| `Dashboard.KpisAdditive` | Scripts/3-dashboard.py:73-76 | The KPIs of two runs of rows are the sums of the KPIs of each run: row count, revenue, quantity and profit. |
| `Dashboard.KpiLucroSkipsMissing` | Scripts/3-dashboard.py:76 | Rows with missing profit add nothing to the profit KPI. |
| `Dashboard.KpiReceitaMatchesPorLoja` | Scripts/3-dashboard.py:74-105 | The revenue KPI equals the total of the per-store groups plus the revenue of rows without a store. |
| `Dashboard.PorLoja` | Scripts/3-dashboard.py:105 | There is one group per distinct non-missing store among the surviving rows. Each group holds that store's revenue. |
| `Dashboard.TopTipos` | Scripts/3-dashboard.py:94-100 | Gives at most ten type groups, the largest revenue first, drawn from the full type grouping, as many as it has up to ten. No type left out has more revenue than one shown. |
| `Dashboard.ReceitaPorDia` | Scripts/3-dashboard.py:86-87 | The chart exists exactly when some surviving row has a valid day. Its days are distinct and are exactly the valid days of the surviving rows. Each day holds the sum of its rows' revenue, with missing revenue counted as 0. |
| `Dashboard.Example` | Scripts/3-dashboard.py:39-76 | Sales of 100 × 1 on 2024-01-01 and 200 × 2 on 2024-01-02, with both days read as their midnights, give revenues 100 and 400. The range [2024-01-01, 2024-01-01] keeps only the first row, and the revenue KPI is 100. |
| `Dashboard.Render` | Scripts/3-dashboard.py:28-105 | The page halts exactly when the missing list is non-empty, and reports that list. Otherwise the index is the filter applied to the prepared rows. The KPIs, the per-day chart, the top types (at most ten) and the per-store groups are all computed over that one index. |

## Left out

- Streamlit widgets, layout and captions. The widget values are parameters: the role mapping, the date range, the category selection, and the store and type selections.
- The date widget itself is not modelled. The range bounds are any timestamps, whereas the widget yields only days, which the filter reads as midnights. The default range is covered by `Charts.DefaultRangeKeeps` and `Dashboard.DefaultDiaRangeKeeps`. The tuple compatibility shim (`isinstance(d1, tuple)`) only reshapes the widget value.
- File reading: existence checks, `read_csv` and the halt when the file is missing. A table is given as the header plus rows of cells.
- Text parsing inside `pd.to_numeric` and `pd.to_datetime`. The two parsers are the `Parsers` parameter. The model fixes only how missing cells, numbers already read and timestamps are treated.
- `Charts.DateAsTotal`: numeric coercion of a coerced date column reads NaT as missing. pandas views a datetime column as 64-bit integers there, so NaT would become −9223372036854775808 rather than NaN. The model keeps NaT missing.
- Floating point. Amounts are mathematical reals, so rounding in sums and products is not modelled. The KPI display formatting is left out.
- The histogram, the scatter plots and the sample-table displays. None of them computes anything beyond what is already modelled.
- Uses of the customer role: its initial choice is modelled (Scripts/2-charts.py:56-62), but the page never reads the chosen column afterwards, so nothing further is modelled.
- Order of group keys. pandas sorts `groupby` keys, while `Groups.GroupSum` keeps first-seen order. Every contract except the sorted outputs is independent of order.
- `Groups.TopN`: ties at the cut-off are not pinned down. The contract does not say which of several equal-total groups pandas keeps.
- `Charts.CategoryShare`: the order among equal totals is not stated.
- Role mappings that name a column absent from the header. The selectboxes cannot produce them. In the model, `At` reads such a column as all missing.
- Pre-existing `Receita`, `Custo Total` and `Lucro` columns are read through numeric coercion. pandas keeps `read_csv`'s dtype, which gives the same numbers for numeric columns.
- `Marca` is required but never used afterwards. It takes part only in the missing-columns check.
- The `"Loja" in df_f.columns` and `"Tipo" in df_f.columns` guards are always true once the required columns are present, so the model omits them.
- The category selection of the charts page is any cell. The page offers only `"(todas)"` and the sorted distinct categories of the date-filtered rows, so the model admits more selections than the widget does.
- The dashboard's sorted option lists for the store and type multiselects are not modelled. The selections are parameters.
- `Scripts/1.basic.py` and `Scripts/4-interactive-ml-dashboard.py` are not part of this model.
