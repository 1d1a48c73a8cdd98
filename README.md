# Budget contributions report — a Dafny model

`budget_streamlit.py` is a small Streamlit page. It loads the budget
spreadsheet and shows who contributed how much. First it checks that the
sheet has the name column `Unnamed: 0` and the amount column
`Total Individuel`. Then it cleans the rows:

- it drops rows without a name;
- it drops the summary rows and the colour-legend rows, whose name contains
  "Total" or "Code couleur" in any case;
- it keeps the two columns and converts the amounts to numbers;
- it drops rows whose amount is not a number.

Next it groups the rows by name and sums their amounts. It computes the
grand total and gives each contributor a share in percent. It sorts the
table by share, largest first, and numbers the rows 1, 2, 3, … as the
ranking. Finally it displays the grand total, the table and a pie chart.

This project models the data pipeline between the column check and the
final table (lines 20–55). It is written as pure functions over sequences,
and lemmas prove what the resulting report is.

- `wrappers.dfy`: `Option` and `Result`.
- `seqs.dfy`: order-preserving filtering and pairwise-different sequences.
- `casefold.dfy`: the case-insensitive substring test for the two marker words.
- `sheets.dfy`: cells, which are missing, text or a number; rows, a map from
  column name to cell; the sheet; and the column error.
- `cleaning.dfy`: the five cleaning steps as separate functions, their
  composition `Clean`, and a row-by-row reference definition (`Survivor`)
  that `Clean` is proved equal to.
- `aggregation.dfy`: group-by-name with summed amounts, the grand total and
  the percentage shares.
- `ranking.dfy`: the sort by descending share and the 1-based ranking.
- `pipeline.dfy`: the whole report (`Run`), the properties of that report,
  and a worked example.

The library conversions are parameters of the model, in the `Conversions`
record:

- `parseNumber` stands for `pd.to_numeric(..., errors='coerce')` applied to
  a text cell;
- `showNumber` stands for how `astype(str)` renders a numeric name.

Every property is proved for all choices of these two functions.

Amounts are exact reals.

## Model

| member | source | states |
|---|---|---|
| Pipeline.Run | budget_streamlit.py:20-55 | The pipeline stops with the list of available columns exactly when the name column or the amount column is missing; otherwise it produces a report. |
| Cleaning.DropMissingNamesKeeps | budget_streamlit.py:30 | Every row with a name stays, as many times as it occurs; every row without a name goes. |
| Cleaning.DropMarkerRowsKeeps | budget_streamlit.py:31 | Every row whose name, read as text, does not contain "Total" or "Code couleur" in any case stays, as often as it occurs; every other row goes. |
| CaseFold.MarkerSurvivesAffixes | budget_streamlit.py:31 | The marker test is a substring test: a name that contains a marker is still caught whatever text surrounds it. |
| Cleaning.DropUnparsedKeeps | budget_streamlit.py:34-35 | The rows left after conversion are exactly the rows whose amount converted, carrying the converted value, each as many times as it occurs; no row is added. |
| Cleaning.CleanAppend | budget_streamlit.py:30-35 | Cleaning is row-local: cleaning two blocks of rows one after the other gives the two cleaned blocks one after the other. |
| Cleaning.CleanIsRowwise | budget_streamlit.py:30-35 | The composed cleaning equals an independent row-by-row definition: each row survives, with its converted amount, exactly when it has a name, is not a marker row and its amount converts. |
| Cleaning.CleanedRowOrigin | budget_streamlit.py:30-35 | A row is in the cleaned table exactly when some sheet row survives cleaning as that row. |
| Cleaning.CleanedRowsAreNamed | budget_streamlit.py:30-31 | No cleaned row has a missing name or a name containing a marker word. |
| Cleaning.DroppedRowIsIgnored | budget_streamlit.py:30-35 | A row with no name, a marker name, or an amount that does not convert is dropped silently: the cleaned table is the same as if the row were absent. |
| Cleaning.KeptRowIsKept | budget_streamlit.py:30-35 | A named, non-marker row whose amount converts to x contributes exactly one row (its name, x), in its place between the cleaned rows before and after it. |
| Aggregation.AddTo | budget_streamlit.py:38 | Adding a row to a grouped table adds its name to the names, raises only its own name's sum by its amount, and raises the total by its amount. |
| Aggregation.AddToKeepsDistinct | budget_streamlit.py:38 | Adding a row to a grouped table never makes two groups share a name. |
| Aggregation.GroupByName | budget_streamlit.py:38 | The grouped table is empty only when the rows are; its names are pairwise different and are the names of the rows; each name's sum and the overall total are those of the rows. |
| Aggregation.GroupsMergeDuplicates | budget_streamlit.py:38 | Each group holds the sum of the amounts of all rows with its name; no name is in two groups; every name of the rows has a group. |
| Aggregation.GroupCount | budget_streamlit.py:38 | There are exactly as many groups as distinct names. |
| Aggregation.AmountForDistinct | budget_streamlit.py:38 | In a table with pairwise-different names, a row's amount is the whole sum for its name. |
| Aggregation.PercentageOrder | budget_streamlit.py:40-46 | Against a positive grand total a larger share means a larger amount and conversely; against a negative grand total the order is reversed. |
| Aggregation.WithShares | budget_streamlit.py:40 | Adding shares keeps every group's name and amount in place and gives each group its amount as a percentage of the grand total. |
| Aggregation.PercentSumScales | budget_streamlit.py:39-40 | The shares add up to the total of the amounts as a percentage of the grand total. |
| Aggregation.SharesSumToHundred | budget_streamlit.py:39-40 | When the grand total is the sum of the group amounts, the shares of a non-empty table add up to exactly 100 (before rounding). |
| Aggregation.ShareNames | budget_streamlit.py:38-40 | The share table has pairwise-different names, one for each distinct name of the cleaned rows. |
| Aggregation.ShareAmounts | budget_streamlit.py:38-40 | Each row of the share table holds the summed amount of its name. |
| Aggregation.SharePercents | budget_streamlit.py:40 | Each row of a share table holds its amount as a percentage of the grand total. |
| Ranking.Insert | budget_streamlit.py:43 | Inserting into a table sorted by descending share keeps it sorted and brings in no row other than the new one. |
| Ranking.InsertAddsOne | budget_streamlit.py:43 | Inserting adds exactly one copy of the new row and loses none (as multisets). |
| Ranking.SortByShare | budget_streamlit.py:43 | The sorted table has non-increasing shares and is a permutation of the input. |
| Ranking.InsertKeepsNamesAndSum | budget_streamlit.py:43 | Inserting adds the new share to the sum of shares and, when the new name is new, keeps names pairwise different. |
| Ranking.SortKeepsNamesAndSum | budget_streamlit.py:43 | Sorting keeps the sum of shares and keeps names pairwise different. |
| Ranking.RankFrom | budget_streamlit.py:50-51 | Numbering gives the i-th row (from 0) the rank first + i and leaves its name, amount and share unchanged. |
| Ranking.RankKeepsPercentSum | budget_streamlit.py:50-55 | Numbering the rows keeps the sum of shares. |
| Ranking.RankedOrder | budget_streamlit.py:43-51 | In the ranked table the ranks are 1, 2, …, N in row order, shares never increase down the table, and a better rank never has a smaller share. |
| Ranking.RankedRows | budget_streamlit.py:43-55 | The ranked table holds exactly the rows of the share table, with none added or lost. |
| Ranking.RankedNamesAndSum | budget_streamlit.py:43-55 | The ranked table has the share table's sum of shares and, if the share table's names are pairwise different, so are its own. |
| Pipeline.SummaryNames | budget_streamlit.py:38-55 | The summary of a cleaned table names each distinct contributor exactly once and no one else. |
| Pipeline.SummaryAmounts | budget_streamlit.py:38-40 | The summary's grand total is the sum of the cleaned amounts; each row holds its name's summed amount and, as its share, that amount as a percentage of the grand total. |
| Pipeline.ReportNames | budget_streamlit.py:30-55 | Every report row is a named, non-marker contributor; no contributor appears twice; every kept contributor appears; so the table has one row per distinct kept name. |
| Pipeline.ReportAmounts | budget_streamlit.py:30-40 | The report's grand total is the sum of the kept amounts (non-zero when the table is non-empty); each row's amount is its name's sum and its share is that amount as a percentage of the grand total. |
| Pipeline.ReportOrder | budget_streamlit.py:42-55 | The report's ranks are 1, 2, …, N in row order, its shares never increase down the table, and a better rank never has a smaller share; with a positive grand total the amounts never increase down the table either (rank 1 is the largest contribution), and with a negative one they never decrease. |
| Pipeline.ReportSharesSumToHundred | budget_streamlit.py:39-40 | The shares of a non-empty report add up to exactly 100 (before rounding). |
| Pipeline.ExampleClean | budget_streamlit.py:30-35 | In a sheet with Alice 100, Bob 100 and a "Total" footer of 9999, cleaning keeps Alice and Bob and drops the footer. |
| Pipeline.GroupsOfTwo | budget_streamlit.py:38-39 | Two rows with different names stay two groups, each with its own amount, and the total is the sum of the two amounts. |
| Pipeline.ExampleNegativeTotal | budget_streamlit.py:38-51 | With contributions of -10 and -30 the grand total is -40 and the -30 contribution, whose share is 75%, is ranked first: the ranking follows shares, not amounts. |
| Pipeline.ExampleReport | budget_streamlit.py:20-55 | For that sheet the report succeeds with grand total 200 (the footer is not counted) and two rows, Alice and Bob, each with a 50% share, ranked 1 and 2. |

## Left out

- Loading the workbook (budget_streamlit.py:13-17) is I/O. The model starts from a sheet already read, given as column names and rows.
- The Streamlit page calls (lines 5-7), the error messages and `st.stop` (lines 21-22) are not modelled. The display of the total, the table and the pie chart (lines 57-75) is presentation and is left out too. A column error is a `Failure` carrying the available columns.
- The `isinstance(df, pd.DataFrame)` check (lines 26-28) cannot fail for a sheet already read. The model has no other kind of value, so it is left out.
- `pd.to_numeric(..., errors='coerce')` and `astype(str)` are foreign library behaviour. Their results are the `Conversions` parameters, not models of pandas' parsing and printing rules.
- The case-insensitive match folds ASCII letters only. Python's full Unicode case folding is not modelled. No non-ASCII character matches any letter of "Total" or "Code couleur" under case-insensitive matching, so the marker test is the same.
- Amounts and shares are exact reals. Floating-point rounding of the sums and of the division is not modelled.
- The `.round(2)` of the shares (line 40) is not modelled. Shares are exact, and the sort on line 43 orders exact shares. Two shares that round to the same value may therefore be ordered strictly in the model but tie in the script.
- `groupby` sorts the groups by name before the shares are sorted. The model lists the groups in the order in which their names last occur, read from the last row back to the first. Only the order of rows with equal shares could differ.
- Ranking.SortByShare: the order of rows with equal shares is left unspecified. The pandas sort is not stable by default, so the source promises no tie order. The report lemmas therefore say nothing about ties.
- Pipeline.Run: requires a non-zero grand total when cleaning keeps at least one row. The script divides without a guard and would show NaN or infinite shares for a zero total; IEEE division results are not modelled.
- Aggregation.WithShares: requires a non-zero grand total for a non-empty table, for the same reason as `Run`.
- Pipeline.ReportOrder: promises rows by decreasing amount only when the grand total is positive. The comment at line 42 says the table is sorted by decreasing contribution, but line 43 sorts by share. When the grand total is negative, the share order is the reverse of the amount order, so the most negative contribution is ranked first (`ExampleNegativeTotal`). The model follows the code.
- `numeric_only=True` in the group sum only matters for the name column. That column is the group key, so summing only the amount is the same thing.
- Column renaming and reordering (lines 32-33, 53-55) only change labels. The model's row types carry just the fields the table keeps: rank, name, amount and share.
