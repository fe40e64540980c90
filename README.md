# Survey analytics engine: a Dafny model

This project models the analytics core of a small survey-evaluation service. The service keeps
workshop-evaluation answers as rows of a spreadsheet. It does three things:

- It lists evaluations, filtered by gender, school year, intended university and age bounds
  (`listar_avaliacoes`).
- It builds a statistics report over that filtered listing (`obter_estatisticas`). The report
  holds a frequency table per answer field and the list of known ages.
- A companion debugging script (`debug_profiles`) counts four fixed gender × school-year groups
  for two interest levels.

The modules follow the source:

- `Sheet` (sheet.dfy): the cell values openpyxl yields and Python truthiness. It also defines
  order-preserving subsequences, which the listing lemmas use.
- `Age` (age.dfy): `calcular_idade`. The wall clock becomes an explicit `today` parameter.
- `Evaluations` (evaluations.dfy): the evaluation record and its column map. It holds the
  listing loop as a method, proved against the `Listing` specification function, and the
  soundness, completeness, order and narrowing lemmas.
- `Counting` (counting.dfy): `dict(Counter(values))` as an insertion-ordered table of
  (value, count) entries.
- `Statistics` (statistics.dfy): `contar_respostas`, the `idades` list, the report layout and the
  "no results" branch.
- `Profiles` (profiles.dfy): the population loop of the debugging script, `filter_group`, the
  fixed groups and level lists, and the group-count loop.

Facts about the code that the model follows:

- A zero age bound or an empty text criterion is no constraint. Every filter is guarded by
  Python truthiness, as in `if idade_min and ...` (main.py:97, 99, 101, 103, 105).
- The "Anônimo" placeholder is put into the record while it is built (main.py:111).
- The profile groups use exact equality on gender and school year (debug_profiles.py:25-26).
  The fixed groups cover two genders and two school years (debug_profiles.py:33-38). Each band
  has one interest level: `['Muito interesse']` and `['Pouco interesse']` (debug_profiles.py:30-31).
- The listing reads columns 0 to 28, so a row must have at least 29 cells.

## Model

| member | source | states |
|---|---|---|
| `Age.CalcAge` | main.py:52-56 | No age exactly when the birth cell is not a datetime (so every falsy cell gives none). Otherwise the age is the number n for which the n-th birthday anniversary is on or before today and the (n+1)-th is not. |
| `Age.AgeIsUnique` | main.py:56 | Any n whose anniversary is reached while the next one is not equals the computed age, so the age is exact calendar age. |
| `Age.BirthdayBoundary` | main.py:56 | On the birthday itself the full year difference is returned; on an earlier day of the same year one less. |
| `Age.AgeNeverDecreases` | main.py:56 | A later "today" never yields a smaller age. |
| `Evaluations.Normalize` | main.py:108-135 | The record is the row read through the fixed column map: every categorical field equals its column, id is column 0, age is derived from column 6. The name is always truthy: the row's name when truthy, otherwise "Anônimo". Completion and birth dates are kept when truthy, else absent. |
| `Evaluations.ListEvaluations` | main.py:85-138 | The loop over the data rows (header skipped) returns exactly `Listing` of those rows. Every returned record has an id and meets every given criterion. |
| `Evaluations.ListingOrigin` | main.py:91-108 | The listing is the records of a strictly increasing list of row positions. Each of those rows has a non-None id and its record meets the criteria. Every row with an id whose record meets the criteria is among them (soundness, completeness, row order). |
| `Evaluations.ListedMeetCriteria` | main.py:92-106 | No listed record lacks an id. Each listed record equals the gender, school year and university criteria when these are truthy. It has a known age ≥ `idade_min` / ≤ `idade_max` when that bound is non-zero. |
| `Evaluations.ListingComplete` | main.py:92-108 | Every row with an id whose record meets all given criteria is listed. |
| `Evaluations.ListingNarrows` | main.py:96-106 | Adding criteria never adds records: the filtered listing is an order-preserving subsequence of the unfiltered one. |
| `Evaluations.FalsyCriteriaIgnored` | main.py:97-106 | An empty-string text criterion or a zero age bound gives the same listing as leaving that criterion out. |
| `Counting.Tally` | main.py:170 | `dict(Counter(values))`: keys are distinct and are exactly the values that occur. Each count is the value's multiplicity and is positive. The counts add up to the number of values. |
| `Statistics.ResponsesLength` | main.py:169 | The response list has one entry per evaluation whose field is truthy, so at most one per evaluation. |
| `Statistics.ResponsesMultiset` | main.py:169 | Each truthy value occurs in the response list as often as in the field; falsy values never occur. |
| `Statistics.CountAnswersSpec` | main.py:168-170 | The keys of `contar_respostas` are exactly the distinct truthy values of the field. Each count is that value's number of occurrences, and falsy values have none. The counts sum to the number of evaluations with a truthy value, which is ≤ `total_participantes`. |
| `Statistics.AgesOrigin` | main.py:185 | `idades` is exactly the known ages of the listed records, in listing order. |
| `Statistics.AgesWithinBounds` | main.py:103-106 | When an age bound is given, every listed record has a known age, so `idades` has one entry per listed record. Every entry lies within the given bounds. |
| `Statistics.ReportSections` | main.py:172-213 | Each section of the report is the frequency table of its own field. None counts more answers than there are participants. |
| `Statistics.ComputeStatistics` | main.py:154-213 | An empty listing yields exactly the "Nenhuma avaliação encontrada com os filtros selecionados" message. Otherwise the report holds: the listing's size, the criteria, the listing's known ages, and the frequency table of every field, each totalling at most the size. |
| `Profiles.BuildPopulation` | debug_profiles.py:11-18 | The population loop returns exactly `Population` of the data rows. |
| `Profiles.PopulationOrigin` | debug_profiles.py:12-18 | The population is the profiles of a strictly increasing list of row positions. These are exactly the rows whose id is not None. |
| `Profiles.PopulationIsUnfilteredListing` | debug_profiles.py:12-18 | The population is the unfiltered listing restricted to gender, school year and technology interest, element by element. |
| `Profiles.FilterGroup` | debug_profiles.py:22-28 | Every member of a group is in the population and has exactly the given gender and school year. Its technology interest is one of the levels. The group is no longer than the population. |
| `Profiles.GroupOrigin` | debug_profiles.py:22-28 | The group is an order-preserving sublist of the population that contains every matching record. |
| `Profiles.GroupSize` | debug_profiles.py:22-28 | The group's size equals the number of matching positions of the population. |
| `Profiles.BandsDisjoint` | debug_profiles.py:30-31 | For one gender and school year, no record is in both the technology group and the humanities group. |
| `Profiles.GroupsDisjoint` | debug_profiles.py:33-38 | Groups of two different fixed (gender, school year) pairs share no record. |
| `Profiles.SumCountsBound` | debug_profiles.py:33-47 | For pairwise distinct (gender, school year) pairs, the group sizes add up to at most the population size. |
| `Profiles.GroupCounts` | debug_profiles.py:41-43 | The reporting loop yields one count per fixed group, in order, each equal to the number of matching records. The four counts add up to at most the population size. |
| `Profiles.DebugProfiles` | debug_profiles.py:6-48 | The script's total is the population size. It gives four technology counts and four humanities counts, each equal to its group's number of members; each band's counts add up to at most the total. |

## Left out

- The HTTP layer is not modelled: the FastAPI app, CORS middleware, the pydantic response model, route decorators and the wrapping of failures in `HTTPException` (main.py:1-50, 58-66, 139-140).
- Loading and closing the workbook and the `os.path.exists` checks are not modelled (main.py:77-83, 137, 151-152). Both "file not found" outcomes are file I/O. The worksheet is an input sequence of rows, header row first.
- `datetime.now()` is replaced by the `today` parameter. The source reads the clock once for each row
  that has an id and a datetime birth cell (main.py:55, called at main.py:94), so a listing that runs across midnight can
  compute ages against two different dates. The model uses one `today` for the whole listing.
- The `str(...)` rendering of the completion timestamp and of the birth date (main.py:110, 112) is
  presentational. The record keeps the cell value itself, with its date and its time of day, so
  datetimes that differ only in the time stay distinct answers when counted.
- The `print` output and the `Counter(interests)` dump of the debugging script are not modelled. Its `except` handler, which only prints the error, is not modelled either.
- The one-off scripts `inspect_excel.py` and `check_values.py` only print distinct values, and `saveExcell.py` only appends a row to the file. They hold no logic beyond I/O.
- Rows narrower than the columns read are excluded by a precondition: 29 cells for the listing and the statistics, 13 for the profile population. When a narrow row has an id, the source raises `IndexError` on it; this becomes an HTTP 500 in the listing and a printed error in the script. Rows without an id are skipped before any other column is read (main.py:92, debug_profiles.py:13), so on a sheet whose narrow rows all lack an id the source returns the listing of the other rows. The precondition excludes such sheets as well. Neither path is modelled.
- Python equality across types is not modelled: `True == 1` and `2.0 == 2` both hold in Python. Cells of other Python types are compared by their textual form and truthiness.
- `Counting.Tally`: the table keeps `dict(Counter(...))`'s first-insertion order by construction. No property about that order is stated.
- No mean, standard deviation, most-frequent tie-break or substring school-year matching exists in the code, so none is modelled.
