# FIRE calculator projection, in Dafny

This project models the core of a small "FIRE" (Financial Independence, Retire
Early) calculator. Given the household's current income and expenses, caps on
both, a year of birth and a predicted maximum age, three yearly growth rates
(salary, inflation, portfolio), the yearly expenses expected at retirement,
current savings and a schedule of one-off "major expenses", `gen_table` builds
one record per calendar year from the current year to the year of death. Each
record holds the year, the age, income, expenses, disposable income, net worth,
the FIRE target (25 times the retirement expenses) and `fire_diff`. The
headline of the calculator is the youngest age whose `fire_diff` is positive.

Files:

- `rounding.dfy` (module `Rounding`): `round_to_two` as `Round2`, round half to
  even at two decimals on exact reals, with its laws.
- `fire_table.dfy` (module `FireTable`): the entities (`Params`, `MajorExpense`,
  `Record`), the baseline record, the one-year recurrence (`NextRecord`) and
  the table. `Table`/`Projection` build the table as the program does, by
  appending each year's record computed from the last one; `RecordAt` defines
  record `i` directly by its index, and `TableAt` proves the two agree.
  `GenTable` is the loop of `gen_table`. It appends one record per year to a
  growing list, reads the last record each time, and is proved to return
  exactly `Projection`. `Min` is Python's two-argument `min`.
- `fire_table_properties.dfy` (module `FireTableProperties`): what the table
  promises. That is its length, years and ages, the caps, the constant target,
  `fire_diff`, how the schedule acts on net worth, monotone growth, and the
  steady state with zero growth.
- `headline.dfy` (module `Headline`): the earliest age at which net worth
  exceeds the target.

Modelling choices:

- The current year, which the program reads from the clock, is a parameter
  (`currentYear`).
- Money and rates are `real`. Rounding is exact round-half-to-even at the
  second decimal, applied at the same points as in the program. Binary
  floating point is not modelled.
- The program's list of dictionaries is a `seq<Record>`. A scheduled expense
  is a `MajorExpense(year, expense)`. The schedule is passed to `GenTable` and
  `Projection` beside the other inputs (`Params`), so that two runs differing
  only in their schedule can be compared.
- `NextRecord` takes the one-off total of its year as an argument;
  `RecordAt` supplies `MajorExpensesOfYear` of the schedule for that year.

Behaviour of the code kept as written:

- When the year of death is not after the current year, `gen_table` returns
  only the baseline record and raises no error (`ProjectionLength`).
- The baseline's `fire_diff` is disposable income minus the target, not net
  worth minus the target (`BaselineRecord`).
- The baseline's income and expenses are the raw inputs and are not capped.
  Only projected records are capped (`CapsHold`).
- Scheduled expenses dated outside the projected years are not rejected. They
  simply have no effect (`OutOfRangeEntryIgnored`).
- A one-off expense of amount E lowers that year's net worth by exactly E
  (`ScheduleEffect`, `SingleMajorExpense`). The gap in later years depends on
  portfolio growth and on rounding; no lemma states it.

## Model

| member | source | states |
|---|---|---|
| `Rounding.Round2Spec` | streamlit_app.py:9-10 | the rounded amount is a whole number of hundredths within half a hundredth of the input |
| `Rounding.Round2` | streamlit_app.py:9-10 | the model of `round_to_two`: the result is within half a hundredth of the input (Round2Spec adds that it is a whole number of hundredths, Round2HalfToEven how ties go) |
| `Rounding.HundredthsAreCents` | streamlit_app.py:9-10 | helper for the rounding laws: every whole number of hundredths is a two-decimal amount |
| `Rounding.Round2Idempotent` | streamlit_app.py:9-10 | an amount already at two decimals is unchanged by rounding |
| `Rounding.Round2Round2` | streamlit_app.py:9-10 | rounding an already rounded amount changes nothing |
| `Rounding.Round2Monotone` | streamlit_app.py:9-10 | rounding preserves order: x <= y implies Round2(x) <= Round2(y) |
| `Rounding.Round2HalfToEven` | streamlit_app.py:10 | an exact half-hundredth rounds to the even hundredth |
| `Rounding.CentsAddSub` | streamlit_app.py:78-87 | helper for the no-growth net-worth lemmas: sums and differences of two-decimal amounts are two-decimal amounts |
| `FireTable.Min` | streamlit_app.py:60-73 | the result is one of the two arguments and no larger than either |
| `FireTable.FireNumber` | streamlit_app.py:39 | a 4% yearly withdrawal from the target pays exactly the retirement expenses (the target is 25 times them), so the target exceeds them when they are positive |
| `FireTable.Grow` | streamlit_app.py:62-63 | one year of growth never lowers a non-negative amount under a non-negative rate, and a zero rate leaves it unchanged |
| `FireTable.GrowCapped` | streamlit_app.py:60-73 | next year's income or expenses are the smaller of the rounded grown amount and the cap: no larger than either, and equal to one of them |
| `FireTable.MajorExpensesOfYear` | streamlit_app.py:75-77 | the year's one-off total is zero when no entry has that year, and non-negative when all amounts are |
| `FireTable.Baseline` | streamlit_app.py:35-52 | the first record has the current year and age, the uncapped raw income and expenses, net worth equal to disposable income plus savings, and fire_diff equal to disposable income minus the target |
| `FireTable.NextRecord` | streamlit_app.py:56-101 | a projected record has the given year and age, income and expenses within their caps, and fire_diff equal to net worth minus the target |
| `FireTable.YearOfDeath` | streamlit_app.py:54 | the last projected year is the year in which the predicted maximum age is reached |
| `FireTable.RecordAt` | streamlit_app.py:41-101 | record i has year current_year + i, age year - year_of_birth and the constant target; it is the baseline for i = 0 and the yearly step of record i - 1 otherwise |
| `FireTable.YearsAhead` | streamlit_app.py:54-56 | the number of years `range(current_year + 1, year_of_death + 1)` visits: zero exactly when the year of death is not after the current year, and otherwise reaching the year of death |
| `FireTable.Table` | streamlit_app.py:41-101 | the first n records, built by appending: n records, the baseline first, and the last one dated current_year + n - 1 |
| `FireTable.TableAt` | streamlit_app.py:56-101 | record i of the table built by appending is the record defined directly for index i |
| `FireTable.Projection` | streamlit_app.py:41-103 | the whole table: one record per year from the current year, the baseline first, the last one dated in the year of death (or the current year) |
| `FireTable.GenTable` | streamlit_app.py:18-103 | the loop that appends one record per year returns exactly the specified table `Projection` |
| `FireTableProperties.ProjectionLength` | streamlit_app.py:41-56 | the table has max(1, year_of_birth + predicted_max_age - current_year + 1) records, and only the baseline when the horizon is not after the current year |
| `FireTableProperties.YearsAndAges` | streamlit_app.py:43-44 | record i has year current_year + i and age year - year_of_birth; consecutive records differ by one year and one year of age; the last year is the year of death, or the current year |
| `FireTableProperties.BaselineRecord` | streamlit_app.py:35-52 | the first record carries the raw income and expenses, the rounded disposable income, disposable income plus savings as net worth, and disposable income minus 25 times retirement expenses as fire_diff |
| `FireTableProperties.CapsHold` | streamlit_app.py:60-73 | every projected record has income <= income cap and expenses <= expense cap |
| `FireTableProperties.FireTargetAndDiff` | streamlit_app.py:39-50 | every record's target is 25 times the retirement expenses, and every projected fire_diff is net worth minus that target |
| `FireTableProperties.RecurrenceAt` | streamlit_app.py:57-87 | record i is made from record i - 1 by the yearly step: capped rounded growth of income and expenses, their rounded difference as disposable income, and the rounded grown net worth plus disposable income minus that year's one-off total |
| `FireTableProperties.Recurrence` | streamlit_app.py:57-87 | every projected record of the table is made from the record before it by that yearly step |
| `FireTableProperties.MajorExpensesAppend` | streamlit_app.py:75-77 | the one-off total of a concatenated schedule is the sum of the two totals, so several entries in one year add up |
| `FireTableProperties.AddedEntry` | streamlit_app.py:75-77 | appending an entry adds its amount to its own year's total and nothing to other years |
| `FireTableProperties.SameTotalsSameRecord` | streamlit_app.py:75-87 | two schedules whose totals agree in every projected year up to a record give the same record |
| `FireTableProperties.ScheduleLeavesIncomeAlone` | streamlit_app.py:60-74 | any two schedules give every record the same income, expenses and disposable income |
| `FireTableProperties.OutOfRangeEntryIgnored` | streamlit_app.py:56-77 | an entry dated at or before the current year, or after the year of death, leaves the whole table unchanged |
| `FireTableProperties.NetWorthShift` | streamlit_app.py:74-87 | from the same previous record, two one-off totals for a year give net worths that differ by exactly the difference of the totals, with equal income, expenses and disposable income |
| `FireTableProperties.FirstDifferingRecord` | streamlit_app.py:74-87 | in the first year in which two schedules' totals may differ, net worth differs by exactly the difference of the totals and income, expenses and disposable income agree |
| `FireTableProperties.ScheduleEffect` | streamlit_app.py:75-88 | runs that differ only in schedule agree on every record before the first year whose totals differ; there, net worth differs by exactly the difference of totals and income, expenses and disposable income agree |
| `FireTableProperties.SingleMajorExpense` | streamlit_app.py:75-87 | one scheduled expense E in a projected year lowers that year's net worth by exactly E against no schedule, and leaves earlier years unchanged |
| `FireTableProperties.GrowCappedNeverShrinks` | streamlit_app.py:60-73 | under a non-negative rate, a two-decimal amount within its two-decimal cap never decreases and stays a two-decimal amount within the cap |
| `FireTableProperties.CapsStick` | streamlit_app.py:60-73 | once income or expenses reach a two-decimal cap under non-negative growth, they stay at the cap in every later year |
| `FireTableProperties.NextNeverShrinks` | streamlit_app.py:60-73 | under non-negative growth, a step from non-negative two-decimal income and expenses within two-decimal caps does not lower either and keeps both so |
| `FireTableProperties.StaysWithinCaps` | streamlit_app.py:60-73 | when the baseline has non-negative two-decimal income and expenses within two-decimal caps under non-negative growth, so does every record |
| `FireTableProperties.IncomeAndExpensesNeverShrink` | streamlit_app.py:60-73 | under those conditions income and expenses never decrease along the table |
| `FireTableProperties.ZeroGrowthStep` | streamlit_app.py:60-73 | with zero salary growth and inflation, a step leaves two-decimal income and expenses within their caps unchanged |
| `FireTableProperties.ZeroGrowthAt` | streamlit_app.py:60-74 | with zero salary growth and inflation, two-decimal inputs within their caps, a record's income, expenses and disposable income equal the baseline's |
| `FireTableProperties.ZeroGrowthSteady` | streamlit_app.py:60-74 | with zero salary growth and inflation, income and expenses stay at their baseline values and disposable income is constant throughout the table |
| `FireTableProperties.NoGrowthStep` | streamlit_app.py:78-87 | with zero portfolio growth and no one-off expense that year, a two-decimal net worth grows by exactly the year's disposable income and stays two-decimal |
| `FireTableProperties.NoGrowthNetWorthAt` | streamlit_app.py:47-87 | with zero portfolio growth, two-decimal savings and no one-off expense up to a record, its net worth is two-decimal and equals the previous net worth plus its disposable income |
| `FireTableProperties.NoGrowthNetWorth` | streamlit_app.py:47-87 | with zero portfolio growth, two-decimal savings and no scheduled entry inside the projected years, each year's net worth is the previous year's plus that year's disposable income |
| `FireTableProperties.DefaultScenario` | streamlit_app.py:111-163 | with the form's default inputs, the target is 187500000, the first record has disposable income and net worth 600000, and the 2030 house lowers the 2030 net worth by exactly 8000000 |
| `Headline.EarliestFireAge` | streamlit_app.py:192 | returns None exactly when no record has fire_diff > 0, and otherwise the smallest age among the records with fire_diff > 0 |
| `Headline.EarliestIsFirstQualifying` | streamlit_app.py:192 | when ages count up by one per record, the headline age is the age of the first record with fire_diff > 0 |
| `Headline.EarliestFireAgeIsFirst` | streamlit_app.py:192 | on the projected table, the headline age is the age in the first year whose fire_diff is positive |

## Left out

- The Streamlit interface (streamlit_app.py:106-228): input widgets, markdown, the plotly chart and the table. This is presentation and I/O.
- `format_inr` (streamlit_app.py:13-15). It sets process-wide locale state and calls a foreign currency formatter.
- Parsing the major-expense text area into entries (streamlit_app.py:165-173). It relies on Python's `int`/`float` conversions and handles no errors. The entry's `description` is not carried, because the projection never reads it.
- An entry without an `expense` key, for which `el.get` yields `None` and the sum fails. Every `MajorExpense` here has an amount.
- pandas `DataFrame` construction and filtering (streamlit_app.py:189, 192). The table is a `seq<Record>` and the filter-and-minimum is `EarliestFireAge`. pandas prints "nan" for an empty minimum; the model returns `None`.
- The default arguments `major_expenses=()` and `current_savings_in_market=0` (streamlit_app.py:29-30): every argument is passed explicitly; the defaults are the empty schedule `[]` and `currentSavings == 0.0`.
- `datetime.datetime.now()` (streamlit_app.py:33) is not called. The current year is a parameter.
- Binary floating point. `Round2` rounds the exact real value half to even. Python's `round` does the same on the exact binary value of a float, so the two can differ in the last cent when a decimal amount has no exact binary representation. Python's int/float distinction is not modelled either.
- The form's input ranges (for example rates from 1 to 100) are not imposed on `Params`. The properties that need a sign or a bound state it as a precondition.
