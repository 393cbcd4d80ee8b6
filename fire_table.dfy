/**
 * The year-by-year projection of a household's finances (`gen_table`).
 *
 * The first record is a baseline built from the inputs; every later record
 * is computed from the one before it: income and expenses grow and are
 * capped, disposable income is their difference, net worth grows by the
 * portfolio rate, takes in the disposable income and pays the one-off
 * expenses scheduled for that year.
 *
 * `Projection` is the specification: record `i` is `RecordAt(i)`, defined
 * by the recurrence. `GenTable` is the loop that builds the list by
 * appending to it, proved to return exactly `Projection`.
 */
module FireTable {
  import opened Rounding

  /** A one-off expense scheduled for a calendar year (a house, a car). */
  datatype MajorExpense = MajorExpense(year: int, expense: real)

  /** The scalar inputs of one projection run. Rates are percentages per year;
      the schedule of one-off expenses is passed beside them. */
  datatype Params = Params(
    currentIncome: real,
    currentExpenses: real,
    incomeCap: real,
    expenseCap: real,
    yearOfBirth: int,
    predictedMaxAge: int,
    salaryIncrement: real,
    inflationRate: real,
    portfolioGrowth: real,
    retirementExpenses: real,
    currentSavings: real)

  /** One row of the table: the household's finances in one calendar year. */
  datatype Record = Record(
    year: int,
    age: int,
    income: real,
    expenses: real,
    disposableIncome: real,
    netWorth: real,
    fireDiff: real,
    fireTarget: real)

  /** The net worth at which the household counts as financially independent:
      a yearly withdrawal of 4% of it pays the retirement expenses. */
  function FireNumber(p: Params): (r: real)
    ensures r * 0.04 == p.retirementExpenses
    ensures p.retirementExpenses > 0.0 ==> r > p.retirementExpenses
  {
    p.retirementExpenses * 25.0
  }

  /** The last calendar year of the projection: the year in which the
      predicted maximum age is reached. */
  function YearOfDeath(p: Params): (r: int)
    ensures r - p.yearOfBirth == p.predictedMaxAge
  {
    p.yearOfBirth + p.predictedMaxAge
  }

  /** The smaller of two amounts; on a tie the first, as the built-in `min` does. */
  function Min(a: real, b: real): (r: real)
    ensures r <= a && r <= b
    ensures r == a || r == b
  {
    if b < a then b else a
  }

  /** `amount` after one year of growth at `pct` percent, before rounding. */
  function Grow(amount: real, pct: real): (r: real)
    ensures pct >= 0.0 && amount >= 0.0 ==> r >= amount
    ensures pct == 0.0 ==> r == amount
  {
    amount + amount * (pct / 100.0)
  }

  /** Next year's income or expenses: grown, rounded, then held under the cap. */
  function GrowCapped(amount: real, pct: real, cap: real): (r: real)
    ensures r <= cap && r <= Round2(Grow(amount, pct))
    ensures r == cap || r == Round2(Grow(amount, pct))
  {
    Min(Round2(Grow(amount, pct)), cap)
  }

  /** The total of the one-off expenses scheduled for `year`; zero when there are none. */
  function MajorExpensesOfYear(es: seq<MajorExpense>, year: int): (r: real)
    ensures (forall i :: 0 <= i < |es| ==> es[i].year != year) ==> r == 0.0
    ensures (forall i :: 0 <= i < |es| ==> es[i].expense >= 0.0) ==> r >= 0.0
  {
    if es == [] then 0.0
    else (if es[0].year == year then es[0].expense else 0.0) + MajorExpensesOfYear(es[1..], year)
  }

  /** The first record, built straight from the inputs: nothing is capped, and
      its `fireDiff` is measured from the disposable income, not the net worth. */
  function Baseline(p: Params, currentYear: int): (r: Record)
    ensures r.year == currentYear && r.age == currentYear - p.yearOfBirth
    ensures r.income == p.currentIncome && r.expenses == p.currentExpenses
    ensures r.netWorth - r.disposableIncome == p.currentSavings
    ensures r.fireDiff + r.fireTarget == r.disposableIncome
  {
    var disposable := Round2(p.currentIncome - p.currentExpenses);
    var fireNumber := FireNumber(p);
    Record(currentYear, currentYear - p.yearOfBirth,
           p.currentIncome, p.currentExpenses,
           disposable, disposable + p.currentSavings,
           disposable - fireNumber, fireNumber)
  }

  /** The record for `year`, computed from the record of the year before and
      the total of the one-off expenses scheduled for `year`. */
  function NextRecord(p: Params, prev: Record, year: int, majorExpensesOfYear: real): (r: Record)
    ensures r.year == year && r.age == year - p.yearOfBirth
    ensures r.income <= p.incomeCap && r.expenses <= p.expenseCap
    ensures r.fireDiff + r.fireTarget == r.netWorth
  {
    var income := GrowCapped(prev.income, p.salaryIncrement, p.incomeCap);
    var expenses := GrowCapped(prev.expenses, p.inflationRate, p.expenseCap);
    var disposable := Round2(income - expenses);
    var netWorth := Round2(Grow(prev.netWorth, p.portfolioGrowth) + disposable)
                    - majorExpensesOfYear;
    var fireNumber := FireNumber(p);
    Record(year, year - p.yearOfBirth, income, expenses, disposable,
           netWorth, netWorth - fireNumber, fireNumber)
  }

  /** The record `i` years after the current year. */
  function RecordAt(p: Params, majorExpenses: seq<MajorExpense>, currentYear: int, i: nat): (r: Record)
    ensures r.year == currentYear + i && r.age == r.year - p.yearOfBirth
    ensures r.fireTarget == FireNumber(p)
  {
    if i == 0 then Baseline(p, currentYear)
    else NextRecord(p, RecordAt(p, majorExpenses, currentYear, i - 1), currentYear + i,
                    MajorExpensesOfYear(majorExpenses, currentYear + i))
  }

  /** How many years are projected after the baseline: none when the last
      year is not after the current one. */
  function YearsAhead(p: Params, currentYear: int): (r: nat)
    ensures r == 0 <==> YearOfDeath(p) <= currentYear
    ensures r > 0 ==> currentYear + r == YearOfDeath(p)
  {
    if YearOfDeath(p) > currentYear then YearOfDeath(p) - currentYear else 0
  }

  /** The first `n` records, built as the program builds them: the baseline,
      then each year's record appended, computed from the last one so far. */
  function Table(p: Params, majorExpenses: seq<MajorExpense>, currentYear: int, n: nat): (r: seq<Record>)
    requires n >= 1
    ensures |r| == n
    ensures r[0] == Baseline(p, currentYear)
    ensures r[n - 1].year == currentYear + n - 1
  {
    if n == 1 then [Baseline(p, currentYear)]
    else
      var before := Table(p, majorExpenses, currentYear, n - 1);
      var year := currentYear + n - 1;
      before + [NextRecord(p, before[n - 2], year, MajorExpensesOfYear(majorExpenses, year))]
  }

  /** Record `i` of the table is the record `i` years after the current year. */
  lemma {:induction false} TableAt(p: Params, majorExpenses: seq<MajorExpense>, currentYear: int, n: nat, i: nat)
    requires i < n
    ensures Table(p, majorExpenses, currentYear, n)[i] == RecordAt(p, majorExpenses, currentYear, i)
  {
    if n > 1 {
      var before := Table(p, majorExpenses, currentYear, n - 1);
      if i < n - 1 {
        assert Table(p, majorExpenses, currentYear, n)[i] == before[i];
        TableAt(p, majorExpenses, currentYear, n - 1, i);
      } else {
        TableAt(p, majorExpenses, currentYear, n - 1, n - 2);
      }
    }
  }

  /** The whole table: the baseline, then one record per year up to the last. */
  function Projection(p: Params, majorExpenses: seq<MajorExpense>, currentYear: int): (r: seq<Record>)
    ensures |r| == YearsAhead(p, currentYear) + 1
    ensures r[0] == Baseline(p, currentYear)
    ensures r[|r| - 1].year == if YearOfDeath(p) > currentYear then YearOfDeath(p) else currentYear
  {
    Table(p, majorExpenses, currentYear, YearsAhead(p, currentYear) + 1)
  }

  /** Build the table by appending one record per year to a growing list,
      each computed from the last record appended. */
  method GenTable(p: Params, majorExpenses: seq<MajorExpense>, currentYear: int) returns (records: seq<Record>)
    ensures records == Projection(p, majorExpenses, currentYear)
  {
    var initialDisposable := Round2(p.currentIncome - p.currentExpenses);
    var fireNumber := p.retirementExpenses * 25.0;
    records := [Record(currentYear, currentYear - p.yearOfBirth,
                       p.currentIncome, p.currentExpenses,
                       initialDisposable, initialDisposable + p.currentSavings,
                       initialDisposable - fireNumber, fireNumber)];
    var yearOfDeath := p.yearOfBirth + p.predictedMaxAge;
    var year := currentYear + 1;
    while year < yearOfDeath + 1
      invariant currentYear < year <= currentYear + YearsAhead(p, currentYear) + 1
      invariant |records| == year - currentYear
      invariant records == Table(p, majorExpenses, currentYear, |records|)
    {
      var latest := records[|records| - 1];
      var age := year - p.yearOfBirth;
      var revisedIncome := Min(Round2(Grow(latest.income, p.salaryIncrement)),
                               p.incomeCap);
      var revisedExpenses := Min(Round2(Grow(latest.expenses, p.inflationRate)),
                                 p.expenseCap);
      var disposable := Round2(revisedIncome - revisedExpenses);
      var majorExpensesOfYear := MajorExpensesOfYear(majorExpenses, year);
      var netWorth := Round2(Grow(latest.netWorth, p.portfolioGrowth) + disposable)
                      - majorExpensesOfYear;
      var fireDiff := netWorth - fireNumber;
      var next := Record(year, age, revisedIncome, revisedExpenses, disposable,
                         netWorth, fireDiff, fireNumber);
      assert next == NextRecord(p, latest, year, majorExpensesOfYear);
      records := records + [next];
      year := year + 1;
    }
    assert |records| == |Projection(p, majorExpenses, currentYear)|;
  }
}
