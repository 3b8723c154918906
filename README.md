# Student dashboard and array exercises, modelled in Dafny

The repository holds two short Python scripts. This project models the logic in both.

**NUMPY_practice.py** has three array exercises. A 10×10 grid of ones becomes a 0/1 checkerboard through two strided slice assignments. A zero-filled 1000×1000 `float64` buffer reports its shape and sizes. The first and last rows of `arange(0, 20).reshape(4, 5)` are swapped through a copy of one row. Module `NumpyPractice` (`numpy_practice.dfy`) models the buffers as `array2`. Each in-place update is a method with a `modifies` frame, and each constructor returns a fresh array. The checkerboard and the row swap are proved cell by cell. The swap is also proved against a function on sequences of rows (`SwapRows`), which is shown to be an involution that keeps the multiset of elements. A lemma shows that swapping without the copy loses a row.

**AP23110011361_courseradashboard.py** is a Streamlit dashboard. Apart from rendering, it has this logic:
- `load_data` normalises the header, coerces the three score columns to numbers, drops rows with a missing score and adds `avg_score`.
- The sidebar option lists come from the loaded table.
- A filter mask is applied to the table.
- The page stops early when nothing matches.
- It computes KPI figures, with a baseline taken over the full table.
- The raw-data table is sorted by average, with `avg_score` dropped.

Module `StudentData` (`student_data.dfy`) holds the records, header normalisation and the loader. The loader is a method that walks the score columns in a `for` loop and then drops and extends rows. It is proved equal to a row-by-row specification (`Loaded`). Module `Dashboard` (`dashboard.dfy`) models the rest as functions over sequences of records. Module `Seqs` (`seqs.dfy`) holds the two generic table operations: selecting rows with a boolean mask (`Keep`), and listing the distinct values of a column (`Unique`). `Wrappers` (`wrappers.dfy`) holds `Option`.

Modelling choices:
- A score cell as read is `Number`, `Text` or `Blank`. `pd.to_numeric(errors='coerce')` keeps numbers, turns text into the number a parser reads from it, or into a missing value. That text parser is a function parameter.
- `avg_score` is a `real`, the exact mean of three integers. For loaded rows, the filter's range test `lo <= avg <= hi` is proved equivalent to `3*lo <= math + reading + writing <= 3*hi`.
- Means are exact rational means.
- `st.stop()` is modelled as the `NoMatchWarning` page.

## Model

| member | source | states |
|---|---|---|
| NumpyPractice.Full | NUMPY_practice.py:4 | `np.full((rows, cols), v)` yields a fresh rows×cols buffer whose every cell is v |
| NumpyPractice.AssignStrided | NUMPY_practice.py:5-6 | after `a[r0::2, c0::2] = v`, a cell holds v exactly when its row and column lie on the strides; every other cell keeps its old value |
| NumpyPractice.StridesAreOddCells | NUMPY_practice.py:5-6 | the slices `1::2, ::2` and `::2, 1::2` share no cell, and together they cover exactly the cells with i + j odd |
| NumpyPractice.NeighboursDiffer | NUMPY_practice.py:4-6 | under the checkerboard rule, horizontally and vertically adjacent cells sum to 1, and cells whose coordinates have the same parity hold 1 |
| NumpyPractice.Checkerboard | NUMPY_practice.py:4-6 | the script's grid is 10×10 and cell (i, j) is 0 exactly when i + j is odd, so (0,0)=1, (1,0)=0 and (0,1)=0 |
| NumpyPractice.Describe | NUMPY_practice.py:12 | the printed attributes of a contiguous array: `shape` is the shape, `ndim` the number of axes, `size` the product of the two extents for a 2-D shape, `itemsize` the element width and `nbytes` = size·itemsize |
| NumpyPractice.Zeros | NUMPY_practice.py:11-12 | `np.zeros((rows, cols), float64)` is a fresh rows×cols buffer of zeros with shape (rows, cols), ndim 2, size rows·cols, itemsize 8 and nbytes 8·rows·cols |
| NumpyPractice.FootprintExercise | NUMPY_practice.py:11-12 | the script's 1000×1000 buffer reports shape (1000, 1000), ndim 2, size 1,000,000, itemsize 8 and nbytes 8,000,000 |
| NumpyPractice.FlatIndexLayout | NUMPY_practice.py:11-16 | the row-major position of a cell is below `size` and gives back (i, j) by division and remainder, and each element's bytes lie inside `nbytes` |
| NumpyPractice.ArangeReshape | NUMPY_practice.py:16 | `arange(0, rows*cols).reshape(rows, cols)` puts cols·i + j in cell (i, j), so a[i][j] = 5i + j for the 4×5 buffer |
| NumpyPractice.ArangeHoldsEachValueOnce | NUMPY_practice.py:16 | in the reshaped `arange` buffer each value v below rows·cols sits in exactly one cell, row v / cols and column v % cols |
| NumpyPractice.CopyRow | NUMPY_practice.py:19 | `a[r, :].copy()` is a fresh array equal to row r |
| NumpyPractice.AssignRowFromRow | NUMPY_practice.py:20 | `a[dst, :] = a[src, :]` gives row dst the old values of row src and changes no other row |
| NumpyPractice.AssignRowFromArray | NUMPY_practice.py:21 | `a[dst, :] = b` gives row dst the values of b and changes no other row |
| NumpyPractice.SwapRows | NUMPY_practice.py:19-21 | the intended result of the swap, on rows as values: same number of rows, rows r and s exchanged, every other row kept |
| NumpyPractice.SwapRowsViaCopy | NUMPY_practice.py:19-21 | copying row r first and then assigning both rows leaves the buffer equal to the old buffer with rows r and s exchanged |
| NumpyPractice.RowSwapExercise | NUMPY_practice.py:16-21 | the script ends with rows [15..19], [5..9], [10..14], [0..4]: the first and last rows are exchanged and the middle rows are unchanged |
| NumpyPractice.SwapRowsInvolution | NUMPY_practice.py:19-21 | exchanging the same two rows twice restores the buffer |
| NumpyPractice.SwapRowsPermutes | NUMPY_practice.py:19-21 | the exchange keeps the multiset of all elements of the buffer |
| NumpyPractice.NaiveSwapLosesRow | NUMPY_practice.py:19-21 | without the copy, both rows end up holding old row s, so whenever the rows differ the result is not the swap |
| StudentData.ReplaceSpaces | AP23110011361_courseradashboard.py:30 | `str.replace(' ', '_')` keeps the length and changes exactly the spaces, into underscores |
| StudentData.Lower | AP23110011361_courseradashboard.py:30 | `str.lower()` keeps the length and lower-cases each character |
| StudentData.NormaliseHeader | AP23110011361_courseradashboard.py:30 | a normalised column name has the header's length, contains no space and no upper-case letter, and each character is the header's character after the two rewrites |
| StudentData.NormaliseColumns | AP23110011361_courseradashboard.py:30 | the rewritten `df.columns` has one name per column, name i being column i's name normalised, so each keeps its length and has no space and no upper-case letter |
| StudentData.NormaliseHeaderIdempotent | AP23110011361_courseradashboard.py:30 | normalising a normalised name changes nothing |
| StudentData.ToNumeric | AP23110011361_courseradashboard.py:35 | coercion never leaves text: a number stays as it is, a missing cell stays missing, and text becomes a number or missing |
| StudentData.Clean | AP23110011361_courseradashboard.py:33-38 | a row survives exactly when all three of its scores coerce to numbers, keeping its categories and coerced scores, with avg equal to the mean of its own three scores |
| StudentData.Loaded | AP23110011361_courseradashboard.py:33-38 | the row-by-row specification of the loader: the clean records of the rows, in file order, never more rows than were read |
| StudentData.LoadedRowsAreMeans | AP23110011361_courseradashboard.py:38 | every row of the loaded table satisfies 3·avg_score = math + reading + writing |
| StudentData.LoadedAppend | AP23110011361_courseradashboard.py:37 | loading keeps file order: the rows loaded from an earlier part of the file come before those from a later part |
| StudentData.LoadedSingle | AP23110011361_courseradashboard.py:33-37 | a single row contributes its clean record when complete, and nothing otherwise |
| StudentData.CoerceColumn | AP23110011361_courseradashboard.py:35 | after `to_numeric` on one score column, that column's cell in every row is the coercion of its old cell (so no text is left and numbers are kept), and every other column of every row is unchanged |
| StudentData.HasAllScores | AP23110011361_courseradashboard.py:37 | the row test of `dropna(subset=score_cols)`: a row is kept iff every score column holds a number |
| StudentData.AddAverage | AP23110011361_courseradashboard.py:38 | every row gains `avg_score` equal to the mean of its own three scores, with its categories and its scores kept |
| StudentData.PipelineIsLoaded | AP23110011361_courseradashboard.py:33-38 | coercing every column, then `dropna` on the score columns, then adding the mean, gives the row-by-row specification of the loader |
| StudentData.LoadData | AP23110011361_courseradashboard.py:28-40 | the returned columns are the normalised header, plus `avg_score` when it was not already there; the table is exactly the row-by-row specification of the loader |
| Seqs.Keep | AP23110011361_courseradashboard.py:85-90 | a masked selection is no longer than the table, and holds only table rows that satisfy the mask |
| Seqs.Unique | AP23110011361_courseradashboard.py:51 | `unique()` lists every value of the column, only values of the column, and none twice |
| Seqs.UniquePrefix | AP23110011361_courseradashboard.py:51 | `unique()` lists values in order of first appearance: the list for a prefix of the column is a prefix of the list for the whole column |
| Dashboard.RaceOptions | AP23110011361_courseradashboard.py:51 | the race option list holds every race of the loaded table, only races of the table, and none twice |
| Dashboard.PrepOptions | AP23110011361_courseradashboard.py:58 | the preparation option list holds every preparation status of the loaded table, only statuses of the table, and none twice |
| Dashboard.Filtered | AP23110011361_courseradashboard.py:85-90 | `df_full[mask]` is no longer than the table, and a row is in it iff it is in the table and its race is selected, its preparation status is selected and lo ≤ avg_score ≤ hi (the mask `Matches`) |
| Dashboard.FilteredExactly | AP23110011361_courseradashboard.py:85-90 | a row is in the filtered view iff it is in the full table and race ∈ selected races, prep ∈ selected preps and lo ≤ avg_score ≤ hi; each matching row appears as often as in the full table |
| Dashboard.FilteredInOrder | AP23110011361_courseradashboard.py:85-90 | the filtered view keeps table order: filtering a concatenation gives the concatenation of the filtered parts |
| Dashboard.EmptySelectionMatchesNothing | AP23110011361_courseradashboard.py:86-87 | with no race or no preparation status selected, the filtered view is empty |
| Dashboard.RangeTestOnTotals | AP23110011361_courseradashboard.py:88-89 | for a loaded row, lo ≤ avg_score ≤ hi iff 3·lo ≤ math + reading + writing ≤ 3·hi |
| Dashboard.RenderPage | AP23110011361_courseradashboard.py:85-214 | the page stops with the warning iff no row matches; otherwise total students is the (positive) size of the filtered view, the subject means are over the filtered view, the baseline is the mean avg_score of the full table, the delta is math mean minus baseline, and the table is the display table of the filtered view |
| Dashboard.Mean | AP23110011361_courseradashboard.py:100-103 | `mean()` of a non-empty column whose every value is v is v |
| Dashboard.MeanSingle | AP23110011361_courseradashboard.py:100-103 | the mean of a one-row table is that row's value |
| Dashboard.MeanAppend | AP23110011361_courseradashboard.py:100-103 | the mean of a concatenation is the mean of the parts' means weighted by their row counts; with MeanSingle this fixes `Mean` as the arithmetic mean |
| Dashboard.MeanWithin | AP23110011361_courseradashboard.py:100-103 | a column's `mean()` over a non-empty table lies between any lower and any upper bound of its values |
| Dashboard.BaselineIgnoresSelection | AP23110011361_courseradashboard.py:103 | any two selections that each match some row both show a report, with the same baseline |
| Dashboard.BaselineIsMeanOfSubjects | AP23110011361_courseradashboard.py:38-103 | over a loaded table, the baseline equals the mean of the three full-table subject means |
| Dashboard.SortByAvgDesc | AP23110011361_courseradashboard.py:214 | `sort_values('avg_score', ascending=False)` yields a permutation of its input, with non-increasing avg_score |
| Dashboard.DropAvg | AP23110011361_courseradashboard.py:214 | `.drop(columns=['avg_score'])` on one row keeps every other column's value (the five categories and the three scores), so the row's total is unchanged |
| Dashboard.DropAvgForgetsOnlyAvg | AP23110011361_courseradashboard.py:214 | two rows give the same display row iff they agree on every column except avg_score |
| Dashboard.DropAvgAll | AP23110011361_courseradashboard.py:214 | the column is dropped from every row of the table, row by row, in order |
| Dashboard.DisplayTable | AP23110011361_courseradashboard.py:214 | the raw-data table has one row per filtered row and is a permutation of the filtered rows with avg_score dropped; for loaded rows it is in non-increasing order of total score, the order of the dropped avg_score |

## Left out

- Streamlit rendering is left out: CSS, page configuration, titles, the sidebar widgets, `st.metric` formatting (`:,` and `:.1f`), the columns and the expander. `st.stop()` appears only as the `NoMatchWarning` page.
- The chart-type select box and both Plotly panels (lines 74-82 and 130-208) are left out: they are rendering done by a library this model cannot see. This includes the group-by and melt for the bar chart, histogram binning and box-plot quartiles.
- `pd.read_csv` and the `@st.cache_data` memoisation are file I/O and framework caching. The loader starts from the header and the rows as read.
- A column missing from the file would raise `KeyError` in the script. The typed record assumes every column the script reads is present.
- Category cells are strings. A blank category cell (NaN in pandas) is not distinguished from text.
- StudentData.ToNumeric: parsing of text by `pd.to_numeric` is a parameter of the model. Scores are integers, so a fractional score such as "72.5" is outside the model.
- StudentData.Lower: lower-cases ASCII letters only, while pandas `str.lower()` also lower-cases non-ASCII letters.
- Means and the average are exact rationals (`real`), so `float64` rounding is not modelled.
- The slider bounds `int(min avg_score)` and `int(max avg_score)` and the default lower bound 50 (lines 65-72) are left out, because they truncate floats. The selection is an input of the filter. The code truncates both bounds with `int()`; the model takes the range as given.
- The script fails before the filter in two cases the model never reaches, because its selection is an input. On an empty loaded table, `int(df_full['avg_score'].min())` at line 65 is `int(NaN)` and raises `ValueError`; the model instead gives `RenderPage([], sel) == NoMatchWarning`. The slider at lines 67-72 rejects the default lower bound 50 when it lies outside [min_avg, max_avg].
- Dashboard.SortByAvgDesc: pandas sorts with an unstable quicksort, so rows with equal avg_score may come in any order. The model fixes one such order, and its contract states only what pandas guarantees: sorted and a permutation.
- The `print` calls of NUMPY_practice.py are output only. `float64` values in `Zeros` are `real`, with `itemsize` fixed at 8.
