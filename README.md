# Child development dashboard — data layer

`app.py` is a Streamlit dashboard for child-development screening data from
Anganwadi centres (AWCs). It loads one sheet with one row per child. Each row
has an ID, the AWC name, a gender cell, an age in months and four
developmental delay codes: Cognitive, Language/Communication, Motor and
Social-Emotional. A negative code means a delay. From this sheet the dashboard
derives several things:

- a cleaned gender column;
- per-child `Total Delays` and `Has_Delay` columns;
- per-category counts and filters;
- a delay-count histogram and the count filter for 0..4;
- the multi-centre selection summary;
- the per-AWC delayed-children ranking;
- the six age bins and the age-group summary;
- the "All" or single-centre table.

This project models that data layer in Dafny. It has three parts:

- **Pure functions over `seq<Row>`.** Every pandas expression (`replace`,
  `lt(0).sum`, `value_counts().sort_index()`, `isin`, `==`, `groupby().count()`,
  `sort_values`, `pd.cut`, `groupby().agg`) is a function here.
- **A `DataFrame` class.** The in-place column writes (`df[...] = ...`) are
  methods on it.
- **Two methods for the button loops.** Each carries the loop invariants for
  its `for` loop.

Modules, one per file:

- `Wrappers`: `Option`.
- `Gender`: the gender replace.
- `Ages`: the age bins of `pd.cut`.
- `Rows`: the row record, the delay-column configuration and the per-row
  derived columns.
- `Masks`: boolean masks written as a small datatype, `df[mask]` as `Filter`
  and `mask.sum()` as `Count`, with generic lemmas:
  - length and append;
  - the kept rows appear in sheet order;
  - counting inside a filter;
  - monotonicity and splitting.
- `Views`: the category, count and centre views, the histogram and the
  selection summary.
- `AwcSummary`: the AWC-wise ranking.
- `AgeSummary`: the age-group table.
- `Frame`: the in-place column writes.
- `Buttons`: the two button loops.

Empty spreadsheet cells are modelled explicitly:

- An empty ID is `None`. `("ID", "count")` skips it.
- An empty AWC name is `None`. `groupby`, `isin`, `==` and `dropna` drop it.
- An empty age is `None`. `pd.cut` gives it no bin, and so does a negative
  age.

Behaviour of `app.py` worth knowing, which the model reproduces:

- The delay-count histogram (app.py:112) lists only the totals that occur,
  in ascending order. A total that no child has gets no bar.
- The AWC ranking (app.py:158) sorts by count alone. The order of centres with
  equal counts is whatever pandas' sort yields; the model proves only that
  counts are non-increasing.
- The age table's `Total` counts non-empty IDs (app.py:171), not rows.
  `With_Delays` can therefore exceed `Total` when IDs are missing.
  `AgeSummary.WithDelaysBound` states the exact bound.
  `AgeSummary.WithDelaysAtMostTotal` assumes every ID is present.
- The age table groups by the categorical `Age Group` column with pandas'
  long-standing default `observed=False`, so all six bins are listed, empty
  ones included. The model assumes that default; with `observed=True` the
  empty bins would be dropped.
- A column missing from the sheet raises a `KeyError` at its first use
  (app.py:47 for `CHINFO_GENDER`, app.py:64 for a delay column, app.py:72 for
  `Name of AWC`, app.py:167 for `Code_Age`, app.py:171 for `ID`). A `Row`
  always carries every column, so the model has no such failure.
- The single-centre view compares the choice with the text `"All"`
  (app.py:186). A centre whose name is `All` therefore cannot be shown on its
  own: `Views.CentreView` gives the whole sheet for it.

## Model

| member | source | states |
|---|---|---|
| Gender.Normalize | app.py:47-49 | 1 and "MALU" become "Male"; 2 and "FAMALE" become "Female"; every other cell is returned unchanged; no result is ever one of the four replaced values |
| Gender.NormalizeIdempotent | app.py:47-49 | cleaning a gender cell twice gives the same cell as cleaning it once |
| Gender.NormalizeColumn | app.py:47-49 | the cleaned column has the same length as the input, and each entry is the cleaned input cell at the same position |
| Gender.NormalizeColumnIdempotent | app.py:47-49 | cleaning the whole column twice equals cleaning it once |
| Gender.NormalizeExample | app.py:47-49 | the column 1, 2, "FAMALE", "MALU", "Male" cleans to Male, Female, Female, Male, Male |
| Ages.Bucket | app.py:165-167 | an age gets a bin exactly when it is present and at least 0; the bin is k exactly when the age lies in (edge k, edge k+1], with 0 included in the first bin |
| Ages.BinsPartition | app.py:165-167 | every age in [0, ∞) lies in exactly one of the six bins |
| Ages.BucketBoundaries | app.py:165-167 | 0 and 12 get the label "0–12m"; 13 and 24 get "13–24m"; 36, 48 and 60 get the label of the bin below them; 60.5 gets "61–72m"; a negative or missing age gets no bin |
| Ages.LabelsDistinct | app.py:166 | two bins have the same label exactly when they are the same bin |
| Rows.CategoryOfLabel | app.py:56-62 | the reverse label map inverts the label map; a text that is none of the four labels has no category |
| Rows.LabelsInvertible | app.py:55-62 | distinct categories have distinct labels and distinct columns |
| Rows.TotalDelays | app.py:64 | Total Delays lies between 0 and 4, and it is 0 exactly when no code is negative |
| Rows.TotalDelaysCountsDomains | app.py:55-64 | Total Delays equals the number of the four categories whose code is negative |
| Rows.HasDelayIff | app.py:65 | Has_Delay holds exactly when at least one of the four codes is negative |
| Masks.Filter | app.py:105 | a filtered row is kept exactly when it is in the sheet and satisfies the mask; the filter is never longer than the sheet |
| Masks.FilterLength | app.py:97-105 | the length of a filter equals the mask's sum |
| Masks.FilterAppend | app.py:105 | filtering the concatenation of two sheets concatenates their filters |
| Masks.FilterInSheetOrder | app.py:105 | the filter is the subsequence of the sheet at strictly increasing positions, exactly the positions whose row satisfies the mask |
| Masks.CountOfFilter | app.py:141 | counting rows that satisfy one mask inside a filter gives the count of both masks together |
| Masks.CountSplit | app.py:169-172 | the rows a mask keeps split into those that satisfy a second mask and those that do not |
| Views.CategoryRowsExact | app.py:97-105 | the category view keeps exactly the rows whose code for that category is negative; its length is that category's button count, and every row in it has a delay |
| Views.DelaySummary | app.py:83 | the pie has four slices, labelled in the fixed category order; each slice equals the length of that category's table (app.py:105) and is at most the number of rows |
| Views.DelaySummaryAddsUp | app.py:83 | the four slices add up to the sum of the Total Delays column |
| Views.TotalCountsAddUp | app.py:120-121 | the five counts for 0..4 delays add up to the number of rows |
| Views.TotalRowsExact | app.py:121-127 | the count view for i keeps exactly the rows whose Total Delays is i, and its length is the button count for i |
| Views.TotalCountOutOfRange | app.py:120-121 | no row has a Total Delays outside 0..4 |
| Views.DelayHistogramExact | app.py:112 | the bars have strictly ascending keys; each bar's height is the number of rows with that total and is positive; the keys are exactly the totals that occur; the heights add up to the number of rows |
| Views.SelectionNotEmpty | app.py:133-136 | a non-empty selection of existing centres selects at least one row, namely exactly the rows whose AWC is selected |
| Views.DelayPercent | app.py:142 | the percentage is at least 0; it is 0 exactly when nobody has a delay; it is at most 100 when the delayed count does not exceed the children count, and exactly 100 when they are equal |
| Views.SummarizeSelection | app.py:135-151 | there is a summary exactly when the selection is non-empty; its children count is the number of selected rows and is positive; its with-delay count is the number of selected rows with a delay and is at most the children count; its percentage is the with-delay count over the children count times 100 and lies in [0, 100]; its category bars are the delay pie of the selected rows and its count pie is their delay-count histogram |
| Views.CentreView | app.py:185-186 | "All" shows the whole sheet unchanged; any other choice shows exactly the rows of that centre, as many as have that AWC name |
| AwcSummary.Names | app.py:158 | the group keys are distinct and are exactly the non-empty AWC names of the rows |
| AwcSummary.SortDescendingCorrect | app.py:158 | the sort is a permutation of its input, its counts are non-increasing, and it keeps distinct keys distinct |
| AwcSummary.SummaryOrdered | app.py:158 | the AWC ranking has non-increasing counts and distinct centres |
| AwcSummary.SummaryCentres | app.py:158 | the ranked centres are exactly the AWC names of the rows with a delay |
| AwcSummary.SummaryCounts | app.py:158 | each centre's entry is the number of its rows that have a delay, and it is positive |
| AwcSummary.SummaryTotal | app.py:158 | the entries add up to the number of delayed rows that have an AWC name |
| AwcSummary.SummaryTotalAllNamed | app.py:158 | when every row has an AWC name, the entries add up to the overall "Children with Delay" count (app.py:73) |
| AgeSummary.Summary | app.py:169-174 | the table has one row per bin, empty bins included, in bin order |
| AgeSummary.WithDelaysBound | app.py:169-172 | a bin's With_Delays is at most its Total plus the number of its rows with an empty ID |
| AgeSummary.WithDelaysAtMostTotal | app.py:169-175 | when every ID is present, each bin's With_Delays is at most its Total, and its percentage is at most 100 |
| AgeSummary.SumTotalsOfSummary | app.py:169-172 | the six Totals add up to the number of rows that have a bin and an ID |
| AgeSummary.TotalsAtMostRows | app.py:169-172 | the six Totals add up to no more than the number of rows |
| AgeSummary.TotalsCoverSheet | app.py:165-172 | when every row has an ID and an age of at least 0, the six Totals add up to the number of rows |
| Frame.DataFrame.Load | app.py:45-50 | the loaded frame holds the sheet with its gender column cleaned and every other field unchanged |
| Frame.DataFrame.NormalizeGenderColumn | app.py:47-49 | the gender column is replaced by its cleaned version; the other columns and the number of rows are unchanged |
| Frame.DataFrame.AddDelayColumns | app.py:64-65 | adds the Total Delays and Has_Delay columns, one entry per row, each derived from that row; the rows are unchanged |
| Frame.DataFrame.AddAgeGroupColumn | app.py:167 | adds the Age Group column, one bin (or none) per row; the rows and the other columns are unchanged |
| Frame.Prepare | app.py:52-65 | a fresh frame whose rows are the cleaned sheet, with both derived column groups in place; cleaning its gender column again would change nothing |
| Buttons.CategoryButtons | app.py:94-105 | the four button counts are the category counts; the selection is the label of the last button pressed, or none; the table shown is exactly that category's rows |
| Buttons.CountButtons | app.py:118-127 | the five button counts are the counts for 0..4 delays and add up to the number of rows; the selection is the last number pressed, or none; the table shown is exactly the rows with that total |

## Left out

- The login dictionary, the session-state gate and `st.stop` (app.py:6-31) are not modelled. They are session plumbing, not data logic.
- The file upload, `pd.read_excel` and `@st.cache_data` (app.py:38-46, 52) are not modelled. They are I/O and library caching. The sheet is a parameter.
- All widgets, metrics, markdown, Plotly charts and cell styling are not modelled. This includes the gender pie's `value_counts` (app.py:77) and the summary metrics as displayed (app.py:71-73). The model instead derives the values behind the metrics: `Masks.Count`, `Views.AwcNames` and `Views.DelayedCount`.
- Floating-point arithmetic, `round(..., 1)` and the `%` string formatting (app.py:142, 175) are not modelled.
- Views.DelayPercent: requires a positive children count. This leaves out the NaN or division by zero pandas gives for an empty age bin.
- AgeSummary.Percentage: requires a positive Total, for the same reason.
- A missing column (a `KeyError` at its first use) is not modelled; a `Row` always carries every column.
- Non-numeric or NaN delay codes are not modelled. Codes are integers, and the pandas comparison semantics for other values are not modelled.
- The secondary order of ties in `sort_values(ascending=False)` (app.py:158) is not modelled. pandas does not guarantee it.
- AwcSummary.SortDescendingCorrect: states only that counts are non-increasing and that the result is a permutation; it states no particular order among equal counts.
- The column renames and the choice of display columns (app.py:106, 127, 187) are not modelled. They are cosmetic projections, and a `Row` has no child name, parent name or phone number.
- The alphabetical order of the widget options (app.py:133, 185) is not modelled. The model uses the set of names.
- Views.SummarizeSelection: requires the selection to be made of existing centre names, which is what the multiselect widget enforces.
- The pressed state of each button comes from the Streamlit runtime. In `Buttons` it is a parameter.
