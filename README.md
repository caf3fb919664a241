# Hospitalisation series of the Spanish regions: a Dafny model

The scripts `main.py`, `gcloud/main.py` and `hospitalized.py` download the
cumulative series of people hospitalised with covid-19 in each Spanish
autonomous community (CCAA). They clean the series and derive a few tables
from it, then plot them. This project models the record-level part of that
work: what happens between "the CSV lines have been read" and "a chart is
drawn". It proves what each step promises.

The model is one set of modules shared by the three scripts. Their copies
of `get_data`, `get_diff_hospitalized_by_day`, `ca_get_name` and
`plot_by_ca` do the same thing. The one difference kept is the number of
footer lines dropped: main.py drops 2 (`Frames.MainFooterLines`) and the
other two drop none (`Frames.NoFooter`).

| module | file | what it models |
|---|---|---|
| `Wrappers` | wrappers.dfy | `Option`, `Result`; the first element that fails a column-wide conversion |
| `Text` | text.dfy | `str.split()[-1]`, `split(sep)[0]` and `[1]`, `in`, `[:n]`, `replace('.', '')`, decimal reading |
| `Dates` | dates.dfy | strict `%d/%m/%Y` parsing of FECHA; dates as day numbers (proleptic Gregorian ordinals) |
| `Frames` | frames.dfy | `get_data`: footer cut, Date column, `fillna(0)`, `dropna()`, the Galicia and national views; the date range |
| `Variation` | variation.dfy | `get_diff_hospitalized_by_day` |
| `Join` | join.dfy | `pd.merge` as an inner join (every matching pair, in the order of the left rows as pandas 2.2 and later give it) |
| `Ratios` | ratios.dfy | column division, with None for a zero denominator |
| `Subdivisions` | subdivisions.dfy | `ca_get_name` and `get_code` over a subdivision table passed in as a parameter |
| `Weekly` | weekly.dfy | `get_diff_hospitalized` (week-over-week change) |
| `Population` | population.dfy | the `Total` and `Code` columns of `load_ca_population_from_gs`; `get_hospitalized_by_population` |
| `Grid` | grid.dfy | the placement, contents and error cases of `plot_by_ca` |

How the data are represented:
- A line of the file is a record of three optional cells (`Frames.CsvRow`).
- A cleaned row has all three cells (`Frames.Row`). Its date is a day
  number, so "7 days earlier" is a subtraction.
- pandas' NaN and NaT are `None`.
- Ratios are exact `real`s, where pandas would compute floats.
- `pd.merge` is modelled in full. When a region reports twice on one date,
  the join gives every combination, as pandas does. `Weekly.OneRowPerRegionDistinct`
  shows that with one row per region and date, no two rows of the table
  name the same region.
- pycountry's subdivision table is a parameter: a sequence of
  `(code, country code, name)`.

Where the scripts change state step by step, the model is imperative:
- `get_data` overwrites its columns: `Frames.GetData` with `AddDateColumn`,
  `FillNaColumn` and `DropNaRows` over arrays.
- `get_code` is a linear search: `Subdivisions.GetCode`.
- The `Total` and `Code` columns are filled line by line:
  `Population.LoadPopulation`.
- `plot_by_ca` loops over the regions: `Grid.PlotByCa`.

Each of these methods is proved equal to a specification function. The
properties are proved about that function. The whole-column expressions
are functions.

## Model

| member | source | states |
|---|---|---|
| Wrappers.FirstFailing | main.py:76 | a column conversion fails exactly when some element fails; the position reported is the first failing one, and all before it pass |
| Text.LastWord | main.py:55 | None exactly for a blank string (where `split()[-1]` raises); otherwise a non-empty word without whitespace that ends the string, preceded by whitespace or nothing |
| Text.LastWordOf | main.py:55 | a word placed after whitespace is the last word of the text |
| Text.Contains | main.py:60 | `p in s` holds exactly when `p` occurs at some offset of `s` |
| Text.Before | main.py:174 | `split(sep)[0]` is a prefix without `sep`, ending at the first `sep` or at the end |
| Text.SplitAt | main.py:174 | splitting `a + sep + b` at its first separator gives `a`, with `b` after it |
| Text.SecondField | main.py:61-63 | `split(sep)[1]` is None exactly when `sep` does not occur (IndexError); otherwise the field after the first `sep`, which holds no `sep` and runs up to the next `sep` or the end of the string |
| Text.SecondFieldOf | main.py:61-63 | the second field of `a + sep + b` is `b` |
| Text.Take | main.py:209 | `[:n]` is a prefix of length `n`, or the whole of a shorter string |
| Text.StripDots | main.py:93 | `replace('.', '')` leaves no dot and never lengthens the string |
| Text.StripDotsConcat | main.py:93 | removing dots from two pieces is removing them from the whole |
| Text.StripDotsIdempotent | main.py:93 | removing the dots twice is removing them once |
| Text.SeparatorIgnored | main.py:93 | a dot inserted anywhere does not change the result |
| Text.ParseNat | main.py:94 | reading succeeds exactly for a non-empty string of decimal digits |
| Text.ParseShowNat | main.py:94 | every natural number written in decimal is read back as itself |
| Dates.ParseCalendarDate | hospitalized.py:31 | `%d/%m/%Y` matched against the whole string, with the calendar check; a result is always a valid date |
| Dates.FieldNoSlash | hospitalized.py:31 | a day or month field that reads as a number holds no slash |
| Dates.ParseCalendarDateComplete | hospitalized.py:31 | a day, month and year field that name a real calendar day, joined by slashes, read as that day |
| Dates.ParseCalendarDateSound | hospitalized.py:31 | a string read as a date is that date's day, month and year fields joined by slashes |
| Dates.ParseCalendarDateSpec | hospitalized.py:31 | a string reads as a date exactly when that date is a real calendar day and the string is its day, month and year fields joined by slashes |
| Dates.ParseFecha | main.py:76 | a day number is given exactly when the text is a valid date inside the pandas timestamp range, and it is that date's day number |
| Dates.ParseFormatFecha | hospitalized.py:31 | every valid date written as "dd/mm/yyyy" is read back as that date |
| Dates.ParseFechaExample | hospitalized.py:31 | "14/03/2020" is 14 March 2020 |
| Dates.ParseFechaNoSuchDay | hospitalized.py:31 | "31/04/2020" matches the pattern but is refused |
| Dates.ParseFechaWrongPattern | hospitalized.py:31 | a string without `/` (an ISO "2020-03-14", say) is refused |
| Dates.OrdinalOrder | main.py:76 | day numbers order dates as the calendar does, and equal day numbers mean equal dates |
| Dates.EarlierOrdinal | main.py:76 | an earlier date has a smaller day number |
| Dates.YearStep | main.py:76 | consecutive years start 365 or 366 days apart, as the leap-year rule says |
| Frames.DropFooter | main.py:73 | `skipfooter`: a prefix of the file, shorter by `footer` lines (empty when there are no more lines than that) |
| Frames.ParseDates | main.py:76 | the Date column exists exactly when every FECHA is empty or readable; each line then gets its own date |
| Frames.CleaningIsRowwise | main.py:77-78 | `fillna(0)` then `dropna()` is, line by line, "keep when region and date are present, count or 0" |
| Frames.CleanedRowOrigin | main.py:77-78 | a cleaned row is exactly the cleaning of some line of the file |
| Frames.CleanedRowsConcat | main.py:78 | cleaning keeps the order of the lines |
| Frames.RegionRowsCount | gcloud/main.py:85 | the selection holds every row of the region as often as the table does, and nothing else |
| Frames.RegionRowsConcat | gcloud/main.py:85 | the selection keeps the order of the table |
| Frames.AddToSeries | main.py:80 | adding a row's count to an ascending series keeps it ascending, adds the date, and adds the count to that date only |
| Frames.NationalView | main.py:80-81 | `groupby("Date").sum()` is ascending by date, has the table's dates, and gives each date the sum of its counts |
| Frames.NationalViewSpec | gcloud/main.py:86-87 | one row per distinct date of the table, in ascending order; each row's count is the sum of that date's counts |
| Frames.SeriesValueAt | main.py:80 | in an ascending series, a listed date's value is its own entry |
| Frames.NationalSumExample | main.py:80-81 | counts 10, 20 and 30 on one day give one row of 60 |
| Frames.GetData | main.py:71-82 | the column-by-column loading returns what `LoadViews` specifies: the three views, or the first date error |
| Frames.AddDateColumn | main.py:76 | fills the Date column, stopping at the first line that cannot be read, which is reported |
| Frames.FillNaColumn | main.py:77 | every count cell becomes its value or 0, in place; nothing is missing afterwards |
| Frames.DropNaRows | main.py:78 | keeps the complete lines, in order, as cleaned rows |
| Frames.LoadViewsFails | main.py:76 | loading fails exactly when a kept line has a FECHA that cannot be read |
| Frames.LoadFailsAt | main.py:76 | the error names the first such line and its text |
| Frames.LoadViewsContents | hospitalized.py:19-37 | `ldf` holds exactly the cleaned kept lines; `ldf_ga` holds exactly its "GA" rows, with their multiplicity; `ldf_es` is its national series |
| Frames.DateSpan | gcloud/main.py:176-177 | the date range is None exactly for an empty table; otherwise the earliest and latest dates, both taken by rows, bounding every row, with min ≤ max |
| Frames.LatestDate | main.py:104 | `df["Date"].max()` is the date of some row and no row is later |
| Frames.RowsOn | main.py:106-109 | selecting a date keeps exactly the rows of that date |
| Frames.RowsOnCount | main.py:106-109 | the selection holds every row of that date as often as the table does, and nothing else |
| Frames.RowsOnConcat | main.py:106-109 | the selection keeps the order of the table |
| Variation.DailyVariation | main.py:99-100 | same length as the column; None first; `v[i] - v[i-1]` at every later place |
| Variation.AccumulateDailyVariation | hospitalized.py:40-41 | the running total of the differences, from the first value, gives the column back |
| Variation.DailyVariationInjective | hospitalized.py:40-41 | two columns with the same first value and the same differences are equal |
| Variation.DailyVariationPrefix | gcloud/main.py:91-92 | the difference of a column without its last value is the difference without its last place |
| Join.Partners | main.py:111-114 | the pairs one left row forms are exactly it with each matching right row |
| Join.InnerJoin | main.py:111-114 | `pd.merge` holds exactly the pairs of a left row and a right row whose keys match |
| Join.InnerJoinConcat | main.py:111-114 | the join follows the order of the left rows |
| Join.PartnersNone | main.py:111-114 | a left row without a match contributes nothing |
| Join.PartnersOne | main.py:111-114 | a left row with a single match contributes exactly one pair |
| Join.PartnersAtMostOne | main.py:111-114 | a left row with at most one match contributes at most one pair |
| Join.InnerJoinLeftDistinct | main.py:111-114 | with distinct left rows, each matching at most one right row, no left row appears in two pairs |
| Ratios.Quotient | main.py:117-118 | the quotient is None exactly for a zero denominator; otherwise it times the denominator is the numerator |
| Ratios.QuotientUnique | main.py:117-118 | a defined quotient is the only number that gives the numerator back |
| Subdivisions.LookupCode | main.py:173 | `subdivisions.get(code=...)` is None exactly when no code matches up to case; otherwise it is the last entry whose code matches |
| Subdivisions.ShortName | main.py:174 | the name up to its first `,`, then up to its first `/` |
| Subdivisions.CaGetNameSpec | main.py:171-176 | `ca_get_name` gives the code itself when "ES-<code>" is not found; otherwise a prefix of the found name, cut at its first `,` or `/` |
| Subdivisions.CaGetNameExample | hospitalized.py:11-16 | "GA" gives "Galicia" |
| Subdivisions.CaGetNameMissingExample | gcloud/main.py:68-73 | a code the table lacks comes back unchanged |
| Subdivisions.SearchWord | main.py:55-57 | the search word is missing exactly for a blank description |
| Subdivisions.FirstMatch | main.py:58-60 | the first Spanish subdivision whose name contains the word, or None when none does |
| Subdivisions.FirstMatchAt | main.py:58-60 | a match with no match before it is the one found |
| Subdivisions.FileCode | main.py:61-62 | "M" becomes "MD"; every other suffix is kept |
| Subdivisions.CodeForSpec | main.py:54-64 | `get_code` raises exactly for a blank description; gives None exactly when no name matches; otherwise gives the remapped suffix of the first match, and raises when that code has no `-` |
| Subdivisions.GetCode | main.py:54-64 | the loop with early return gives what `CodeFor` specifies |
| Subdivisions.CodeForCatalunya | main.py:56-57 | "09 Cataluña" finds the subdivision named "Catalunya" |
| Subdivisions.CodeForMadrid | main.py:61-62 | Madrid's code "ES-M" gives "MD" |
| Subdivisions.SuffixOf | main.py:61-63 | the part after `-` of "ES-<suffix>" is the suffix |
| Weekly.Compare | main.py:115-119 | a compared row keeps both counts, `Diff = current - prior`, `Diff_percent · prior = Diff · 100` (None when prior is 0), and the resolved name |
| Weekly.CompareAll | main.py:111-119 | the table holds exactly the comparisons of matching current and earlier rows |
| Weekly.NationalPercent | main.py:120-122 | None exactly when the earlier counts sum to 0; otherwise the change of the sums times 100 over the earlier sum |
| Weekly.WeekOverWeekMembers | main.py:103-114 | a row is in `df_diff` exactly when it compares a latest-date row with a same-region row `days_diff` days earlier |
| Weekly.RegionCompared | main.py:104-114 | a region appears exactly when it has a row on the latest date and one `days_diff` days earlier |
| Weekly.RegionPaired | main.py:111-114 | the merge holds a region exactly when both of its sides do |
| Weekly.OneRowPerRegion | main.py:111-114 | with one row per region and date, any two table rows of one region are equal |
| Weekly.RowsOnRegionsDistinct | main.py:106-109 | with one row per region and date, the rows of one date name each region once |
| Weekly.CompareAllRegionsDistinct | main.py:111-114 | joining two sides that each name a region at most once names each region at most once |
| Weekly.EveryDateRegionsDistinct | main.py:106-109 | with one row per region and date, the rows of every date name each region once |
| Weekly.WeekOverWeekRegionsDistinct | main.py:104-114 | when the rows of every date name each region once, so does the compared table |
| Weekly.OneRowPerRegionDistinct | main.py:104-114 | with one row per region and date, no two rows of the table name the same region |
| Weekly.WeekOverWeekConsistent | main.py:115-118 | every row's difference and percentage agree with its two counts |
| Weekly.WeightedPercentsSum | main.py:120-122 | the regional percentages weighted by earlier counts add up to 100 times the summed change |
| Weekly.NationalIsWeightedMean | main.py:120-122 | the national percentage is the mean of the regional ones weighted by earlier counts |
| Weekly.NationalNotMeanExample | main.py:120-122 | +100 % on 100 and 0 % on 300 give +25 % nationally, not their plain mean of +50 % |
| Weekly.WeekOverWeekExample | main.py:103-123 | prior 120 and current 100 give -20 and -50/3 % (-16.67 %), regionally and nationally |
| Population.ParseTotal | main.py:93-94 | the `Total` converts exactly when, without its dots, it is a non-empty digit string |
| Population.ParseTotalIgnoresDots | main.py:93-94 | a thousands separator anywhere does not change the figure |
| Population.ParseTotalExample | main.py:93-94 | "1.234.567" is 1234567 |
| Population.Assemble | main.py:93-95 | the table loads exactly when every figure converts and every name resolves; a bad figure is reported before any name; the first failure is reported; each loaded line carries its figure and code |
| Population.PopulationTableSpec | main.py:93-95 | each loaded line holds the figure of its `Total` and the code `get_code` gives for its name; a bad figure or name makes loading fail no later than that line |
| Population.PopulationTableNameError | main.py:95 | a name error carries what `get_code` raised on that line |
| Population.LoadPopulation | main.py:93-95 | the column-by-column loading returns what `PopulationTable` specifies |
| Population.ConvertTotals | main.py:93-94 | the conversion of `Total` reports the first figure that cannot be read, or gives every figure |
| Population.FillCodes | main.py:95 | filling `Code` line by line returns the table, or the first name error |
| Population.Relate | main.py:134-136 | `Relation · Total = count · 10000` (None for a zero population); the count, population and resolved name are kept |
| Population.Deviation | main.py:139-140 | `Relation_with_sp + national = Relation`, undefined when either is |
| Population.NationalRate | main.py:137-138 | None exactly for a zero total population; otherwise `rate · ΣTotal = Σcount · 10000` |
| Population.RelateAll | main.py:128-136 | the merge holds exactly the rows relating a current row to a population line carrying its code, each with a consistent rate |
| Population.WithDeviationSums | main.py:139-140 | adding the deviation column changes neither sum |
| Population.PopulationRates | main.py:126-141 | the national rate is the rate of the table's sums; every row's `Relation` is consistent and its `Relation_with_sp` is its deviation from the national rate |
| Population.PopulationMembers | main.py:126-141 | a row is in the table exactly when it is a merged row with its deviation from the national rate filled in |
| Population.RelateAllMembers | main.py:128-133 | the merged rows are exactly those for a latest-date row and a population line whose `Code` is its region |
| Population.WeightedDeviationsSum | main.py:137-140 | the population-weighted deviations add up to `Σcount · 10000 − national · ΣTotal` |
| Population.DeviationsBalance | main.py:137-140 | weighted by population, the deviations from the national rate cancel: it is the weighted mean of the regional rates |
| Population.JoinedTotals | main.py:130-133 | every merged row carries the population of a line of the table |
| Population.PopulationRatesExample | main.py:128-140 | 500 cases in 1,000,000 people give 5.0, regionally and nationally, with a deviation of 0 |
| Grid.Regions | main.py:192 | `unique()` lists each region of the table once |
| Grid.RegionsInOrder | main.py:192 | regions are listed in the order of their first rows |
| Grid.IndexOf | main.py:199 | `list.index` is the first position holding the value |
| Grid.IndexOfDistinct | main.py:198-199 | in a list without repeats, each entry is found at its own position |
| Grid.GridRows | main.py:194 | `ceil(n / 2)`: `2r ≥ n > 2r − 2` |
| Grid.Panels | main.py:198-210 | one panel per region, in list order, the k-th for the k-th region |
| Grid.PlotByCa | main.py:192-216 | the loop over the regions builds what `GridFigure` specifies |
| Grid.DrawPanels | main.py:198-210 | the loop draws the panels `Panels` specifies |
| Grid.DrawPanel | main.py:199-210 | one turn of the loop draws the panel of the region at its `index` |
| Grid.GridFigureOutcome | main.py:194-207 | the figure fails exactly for an empty table or one or two regions (a single row of axes); otherwise it has ⌈n/2⌉ grid rows and one panel per region |
| Grid.CellsFitGrid | gcloud/main.py:114-117 | every panel's cell lies in the ⌈n/2⌉×2 grid, and no two panels share a cell |
| Grid.CellOfInjective | hospitalized.py:91-93 | distinct positions get distinct cells |
| Grid.DeletedCellUnused | main.py:215-216 | a cell is removed exactly when n is odd; it is the last cell and holds no panel; the panels and it fill the grid |
| Grid.DeletedCellFree | gcloud/main.py:131-132 | no region's cell is the removed one |
| Grid.GridCovered | hospitalized.py:107-108 | the cells of the regions and the removed cell cover the grid |
| Grid.PanelContents | hospitalized.py:94-102 | panel k plots the k-th region's rows only, in order, as daily variation when `plot_diff` and as counts otherwise, at cell (k div 2, k mod 2), titled by at most 15 characters of its name, with both confinement dates marked |
| Grid.ThreeRegionsExample | hospitalized.py:84-108 | three regions make two grid rows; the third panel sits at (1, 0) and (1, 1) is removed |

## Left out

- Downloading the CSV and writing it locally (`requests.get`, `open(...).write`): network and file I/O.
- `pd.read_csv` itself (cp1252 decoding, delimiters, quoting): the model starts from the lines once read, as cells.
- Google Cloud Storage (`load_ca_population_from_gs`'s download, `copy_to_gs`, `copy_to_local`): remote and local file I/O.
- All matplotlib rendering: the figure size, spacing, colours, legends, `autofmt_xdate`, `savefig`, and `plot`, `plot_bars` and `plot_quadrants`. Only the placement, titles, plotted values and markers of `plot_by_ca` are modelled.
- The `argparse` and `__main__` blocks, and `do_calc`: command-line and entry-point glue.
- The text of the date-range message of `do_calc_temp`: only the two dates it reports are modelled (`Frames.DateSpan`).
- IEEE floating point: ratios are exact reals. pandas' inf and NaN for a zero denominator are `None`.
- pandas' integer columns becoming floats after `fillna(0)` and `sum()`: counts stay integers.
- Frames.ParseDates: pandas timestamps are nanoseconds in 64 bits. Only the resulting range of dates (22 September 1677 to 11 April 2262, midnights) is modelled, not the arithmetic.
- Population.ParseTotal: only a plain digit string (once the dots are gone) is accepted. `pd.to_numeric` also accepts signs, decimals, exponents and surrounding whitespace, and turns an empty cell into NaN. The published population file uses none of these.
- Subdivisions.LookupCode: codes are compared after ASCII lower-casing. pycountry folds case with full Unicode rules, which matters for no subdivision code.
- Subdivisions.CaGetName and Subdivisions.CodeFor carry no `ensures` of their own. Their contracts are the lemmas `Subdivisions.CaGetNameSpec` and `Subdivisions.CodeForSpec`.
- `ca_get_name`'s bare `except` swallows any exception. The only one its body can raise on a well-formed table is the failed lookup, which is modelled.
- `plot_by_ca` with one or two regions: matplotlib returns a one-dimensional array of axes and `ax[column, row]` raises. The model reports this as `SingleRowOfAxes` rather than modelling matplotlib's array shapes.
- Join.InnerJoinConcat: the order is the one pandas 2.2 and later give. Earlier versions group the left rows that share a key, which differs only when a key repeats on the left.
- The definitions in covid19_definitions.py and special_dates.py are constant tables. The few constants used (column names, the two confinement dates) are written inline.
