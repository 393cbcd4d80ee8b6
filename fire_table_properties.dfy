/**
 * What the projection promises, proved about `Projection` (and therefore,
 * through its postcondition, about what `GenTable` returns): the shape of
 * the table, the caps, the constant target, how the scheduled one-off
 * expenses act on net worth, and what happens when nothing grows.
 *
 * Most properties are proved one step of the recurrence at a time, about
 * `NextRecord`, and then carried along the table by induction on `RecordAt`.
 */
module FireTableProperties {
  import opened Rounding
  import opened FireTable

  /** Record `i` of the table, as built by appending, is the record `i`
      years after the current year. */
  lemma ProjectionAt(p: Params, es: seq<MajorExpense>, currentYear: int, i: nat)
    requires i < |Projection(p, es, currentYear)|
    ensures Projection(p, es, currentYear)[i] == RecordAt(p, es, currentYear, i)
  {
    TableAt(p, es, currentYear, YearsAhead(p, currentYear) + 1, i);
  }

  // ---------------------------------------------------------------------
  // Shape of the table

  /** One record per year from the current year to the last year of life,
      and only the baseline when that year is not after the current one. */
  lemma ProjectionLength(p: Params, es: seq<MajorExpense>, currentYear: int)
    ensures |Projection(p, es, currentYear)| ==
            if YearOfDeath(p) - currentYear + 1 > 1 then YearOfDeath(p) - currentYear + 1 else 1
    ensures YearOfDeath(p) <= currentYear ==> Projection(p, es, currentYear) == [Baseline(p, currentYear)]
  {
  }

  /** The table starts at the current year, counts up one year at a time,
      ends at the last year of life (or the current year), and every age is
      the year minus the year of birth. */
  lemma YearsAndAges(p: Params, es: seq<MajorExpense>, currentYear: int)
    ensures forall i :: 0 <= i < |Projection(p, es, currentYear)| ==>
              Projection(p, es, currentYear)[i].year == currentYear + i &&
              Projection(p, es, currentYear)[i].age == Projection(p, es, currentYear)[i].year - p.yearOfBirth
    ensures forall i :: 0 < i < |Projection(p, es, currentYear)| ==>
              Projection(p, es, currentYear)[i].year == Projection(p, es, currentYear)[i - 1].year + 1 &&
              Projection(p, es, currentYear)[i].age == Projection(p, es, currentYear)[i - 1].age + 1
    ensures Projection(p, es, currentYear)[|Projection(p, es, currentYear)| - 1].year ==
            if YearOfDeath(p) > currentYear then YearOfDeath(p) else currentYear
  {
    var r := Projection(p, es, currentYear);
    forall i | 0 <= i < |r|
      ensures r[i].year == currentYear + i && r[i].age == r[i].year - p.yearOfBirth
    {
      ProjectionAt(p, es, currentYear, i);
    }
  }

  /** The first record is the raw inputs: income and expenses uncapped, net
      worth the disposable income plus the savings, and `fireDiff` measured
      from the disposable income. */
  lemma BaselineRecord(p: Params, es: seq<MajorExpense>, currentYear: int)
    ensures Projection(p, es, currentYear)[0].income == p.currentIncome
    ensures Projection(p, es, currentYear)[0].expenses == p.currentExpenses
    ensures Projection(p, es, currentYear)[0].disposableIncome == Round2(p.currentIncome - p.currentExpenses)
    ensures Projection(p, es, currentYear)[0].netWorth ==
            Round2(p.currentIncome - p.currentExpenses) + p.currentSavings
    ensures Projection(p, es, currentYear)[0].fireDiff ==
            Round2(p.currentIncome - p.currentExpenses) - p.retirementExpenses * 25.0
  {
  }

  /** Every projected year keeps income and expenses under their caps. */
  lemma CapsHold(p: Params, es: seq<MajorExpense>, currentYear: int)
    ensures forall i :: 0 < i < |Projection(p, es, currentYear)| ==>
              Projection(p, es, currentYear)[i].income <= p.incomeCap &&
              Projection(p, es, currentYear)[i].expenses <= p.expenseCap
  {
    var r := Projection(p, es, currentYear);
    forall i | 0 < i < |r| ensures r[i].income <= p.incomeCap && r[i].expenses <= p.expenseCap {
      ProjectionAt(p, es, currentYear, i);
    }
  }

  /** The target is 25 times the retirement expenses in every record; each
      projected `fireDiff` is net worth minus that target. */
  lemma FireTargetAndDiff(p: Params, es: seq<MajorExpense>, currentYear: int)
    ensures forall i :: 0 <= i < |Projection(p, es, currentYear)| ==>
              Projection(p, es, currentYear)[i].fireTarget == p.retirementExpenses * 25.0
    ensures forall i :: 0 < i < |Projection(p, es, currentYear)| ==>
              Projection(p, es, currentYear)[i].fireDiff ==
              Projection(p, es, currentYear)[i].netWorth - Projection(p, es, currentYear)[i].fireTarget
  {
    var r := Projection(p, es, currentYear);
    forall i | 0 <= i < |r|
      ensures r[i].fireTarget == p.retirementExpenses * 25.0
      ensures i > 0 ==> r[i].fireDiff == r[i].netWorth - r[i].fireTarget
    {
      ProjectionAt(p, es, currentYear, i);
    }
  }

  /** `cur` is the record that the yearly step makes of `prev`: capped
      growth of income and expenses, their rounded difference, and net worth
      grown, topped up, rounded, and then reduced by that year's one-off
      expenses. */
  predicate FollowsFrom(p: Params, es: seq<MajorExpense>, prev: Record, cur: Record) {
    && cur.income == Min(Round2(Grow(prev.income, p.salaryIncrement)), p.incomeCap)
    && cur.expenses == Min(Round2(Grow(prev.expenses, p.inflationRate)), p.expenseCap)
    && cur.disposableIncome == Round2(cur.income - cur.expenses)
    && cur.netWorth == Round2(Grow(prev.netWorth, p.portfolioGrowth) + cur.disposableIncome)
                       - MajorExpensesOfYear(es, cur.year)
  }

  /** Record `i` follows from record `i - 1` by the yearly step. */
  lemma RecurrenceAt(p: Params, es: seq<MajorExpense>, currentYear: int, i: nat)
    requires 0 < i
    ensures FollowsFrom(p, es, RecordAt(p, es, currentYear, i - 1), RecordAt(p, es, currentYear, i))
  {
  }

  /** Each projected record follows from the one before it by the yearly step. */
  lemma Recurrence(p: Params, es: seq<MajorExpense>, currentYear: int)
    ensures forall i :: 0 < i < |Projection(p, es, currentYear)| ==>
              FollowsFrom(p, es, Projection(p, es, currentYear)[i - 1], Projection(p, es, currentYear)[i])
  {
    var r := Projection(p, es, currentYear);
    forall i | 0 < i < |r|
      ensures FollowsFrom(p, es, r[i - 1], r[i])
    {
      ProjectionAt(p, es, currentYear, i);
      ProjectionAt(p, es, currentYear, i - 1);
      RecurrenceAt(p, es, currentYear, i);
    }
  }

  // ---------------------------------------------------------------------
  // Scheduled one-off expenses

  /** The total of a schedule split in two is the sum of the two totals; in
      particular several entries for one year add up. */
  lemma {:induction false} MajorExpensesAppend(a: seq<MajorExpense>, b: seq<MajorExpense>, year: int)
    ensures MajorExpensesOfYear(a + b, year) == MajorExpensesOfYear(a, year) + MajorExpensesOfYear(b, year)
  {
    if a != [] {
      assert (a + b)[1..] == a[1..] + b;
      MajorExpensesAppend(a[1..], b, year);
    } else {
      assert a + b == b;
    }
  }

  /** Adding an entry adds its amount to its own year and nothing to any other. */
  lemma AddedEntry(es: seq<MajorExpense>, e: MajorExpense, year: int)
    ensures MajorExpensesOfYear(es + [e], year) ==
            MajorExpensesOfYear(es, year) + (if e.year == year then e.expense else 0.0)
  {
    MajorExpensesAppend(es, [e], year);
  }

  /** A record depends on the schedule only through the totals of the years
      up to its own. */
  lemma {:induction false} SameTotalsSameRecord(p: Params, es1: seq<MajorExpense>, es2: seq<MajorExpense>,
                                                currentYear: int, i: nat)
    requires forall y :: currentYear < y <= currentYear + i ==>
               MajorExpensesOfYear(es1, y) == MajorExpensesOfYear(es2, y)
    ensures RecordAt(p, es1, currentYear, i) == RecordAt(p, es2, currentYear, i)
  {
    if i > 0 {
      SameTotalsSameRecord(p, es1, es2, currentYear, i - 1);
      assert MajorExpensesOfYear(es1, currentYear + i) == MajorExpensesOfYear(es2, currentYear + i);
    }
  }

  /** From the same previous record, the one-off total of the year moves net
      worth by exactly that total and changes nothing else. */
  lemma NetWorthShift(p: Params, prev: Record, year: int, total1: real, total2: real)
    ensures NextRecord(p, prev, year, total2).income == NextRecord(p, prev, year, total1).income
    ensures NextRecord(p, prev, year, total2).expenses == NextRecord(p, prev, year, total1).expenses
    ensures NextRecord(p, prev, year, total2).disposableIncome == NextRecord(p, prev, year, total1).disposableIncome
    ensures NextRecord(p, prev, year, total2).netWorth == NextRecord(p, prev, year, total1).netWorth - (total2 - total1)
  {
  }

  /** Income, expenses and disposable income never depend on the schedule. */
  lemma {:induction false} ScheduleLeavesIncomeAlone(p: Params, es1: seq<MajorExpense>, es2: seq<MajorExpense>,
                                                     currentYear: int, i: nat)
    ensures RecordAt(p, es1, currentYear, i).income == RecordAt(p, es2, currentYear, i).income
    ensures RecordAt(p, es1, currentYear, i).expenses == RecordAt(p, es2, currentYear, i).expenses
    ensures RecordAt(p, es1, currentYear, i).disposableIncome == RecordAt(p, es2, currentYear, i).disposableIncome
  {
    if i > 0 {
      ScheduleLeavesIncomeAlone(p, es1, es2, currentYear, i - 1);
      var prev1, prev2 := RecordAt(p, es1, currentYear, i - 1), RecordAt(p, es2, currentYear, i - 1);
      var year := currentYear + i;
      NetWorthShift(p, prev1, year, MajorExpensesOfYear(es1, year), 0.0);
      NetWorthShift(p, prev2, year, MajorExpensesOfYear(es2, year), 0.0);
      assert NextRecord(p, prev1, year, 0.0).income == NextRecord(p, prev2, year, 0.0).income;
      assert NextRecord(p, prev1, year, 0.0).expenses == NextRecord(p, prev2, year, 0.0).expenses;
    }
  }

  /** Entries dated outside the projected years (the current year or before,
      or after the last year of life) change nothing in the table. */
  lemma OutOfRangeEntryIgnored(p: Params, es: seq<MajorExpense>, currentYear: int, e: MajorExpense)
    requires e.year <= currentYear || e.year > YearOfDeath(p)
    ensures Projection(p, es + [e], currentYear) == Projection(p, es, currentYear)
  {
    var k := YearsAhead(p, currentYear);
    forall y | currentYear < y <= currentYear + k
      ensures MajorExpensesOfYear(es + [e], y) == MajorExpensesOfYear(es, y)
    {
      AddedEntry(es, e, y);
    }
    var r1, r2 := Projection(p, es + [e], currentYear), Projection(p, es, currentYear);
    forall i | 0 <= i <= k ensures r1[i] == r2[i] {
      ProjectionAt(p, es + [e], currentYear, i);
      ProjectionAt(p, es, currentYear, i);
      SameTotalsSameRecord(p, es + [e], es, currentYear, i);
    }
  }

  /** The first record in which two schedules' totals can differ: net worth
      moves by the difference of that year's totals, nothing else moves. */
  lemma FirstDifferingRecord(p: Params, es1: seq<MajorExpense>, es2: seq<MajorExpense>, currentYear: int, k: nat)
    requires 0 < k
    requires forall y :: currentYear < y < currentYear + k ==>
               MajorExpensesOfYear(es1, y) == MajorExpensesOfYear(es2, y)
    ensures RecordAt(p, es2, currentYear, k).netWorth ==
            RecordAt(p, es1, currentYear, k).netWorth
            - (MajorExpensesOfYear(es2, currentYear + k) - MajorExpensesOfYear(es1, currentYear + k))
    ensures RecordAt(p, es2, currentYear, k).income == RecordAt(p, es1, currentYear, k).income
    ensures RecordAt(p, es2, currentYear, k).expenses == RecordAt(p, es1, currentYear, k).expenses
    ensures RecordAt(p, es2, currentYear, k).disposableIncome == RecordAt(p, es1, currentYear, k).disposableIncome
  {
    var prev := RecordAt(p, es1, currentYear, k - 1);
    SameTotalsSameRecord(p, es2, es1, currentYear, k - 1);
    var year := currentYear + k;
    NetWorthShift(p, prev, year, MajorExpensesOfYear(es1, year), MajorExpensesOfYear(es2, year));
  }

  /** Two runs that differ only in their schedule agree on every year before
      the first year whose totals differ; in that year their net worths
      differ by exactly the difference of the totals, and nothing else does. */
  lemma ScheduleEffect(p: Params, es1: seq<MajorExpense>, es2: seq<MajorExpense>, currentYear: int, k: nat)
    requires 0 < k < |Projection(p, es1, currentYear)|
    requires forall y :: currentYear < y < currentYear + k ==>
               MajorExpensesOfYear(es1, y) == MajorExpensesOfYear(es2, y)
    ensures |Projection(p, es2, currentYear)| == |Projection(p, es1, currentYear)|
    ensures Projection(p, es2, currentYear)[..k] == Projection(p, es1, currentYear)[..k]
    ensures Projection(p, es2, currentYear)[k].netWorth ==
            Projection(p, es1, currentYear)[k].netWorth
            - (MajorExpensesOfYear(es2, currentYear + k) - MajorExpensesOfYear(es1, currentYear + k))
    ensures Projection(p, es2, currentYear)[k].income == Projection(p, es1, currentYear)[k].income
    ensures Projection(p, es2, currentYear)[k].expenses == Projection(p, es1, currentYear)[k].expenses
    ensures Projection(p, es2, currentYear)[k].disposableIncome == Projection(p, es1, currentYear)[k].disposableIncome
  {
    var r1, r2 := Projection(p, es1, currentYear), Projection(p, es2, currentYear);
    forall i | 0 <= i < k ensures r2[i] == r1[i] {
      ProjectionAt(p, es1, currentYear, i);
      ProjectionAt(p, es2, currentYear, i);
      SameTotalsSameRecord(p, es2, es1, currentYear, i);
    }
    assert r2[..k] == r1[..k];
    ProjectionAt(p, es1, currentYear, k);
    ProjectionAt(p, es2, currentYear, k);
    FirstDifferingRecord(p, es1, es2, currentYear, k);
  }

  /** A single one-off expense of amount E in a projected year Y lowers that
      year's net worth by exactly E against the same run with no schedule,
      and leaves every earlier year as it was. */
  lemma SingleMajorExpense(p: Params, currentYear: int, e: MajorExpense)
    requires currentYear < e.year <= YearOfDeath(p)
    ensures Projection(p, [e], currentYear)[..e.year - currentYear] ==
            Projection(p, [], currentYear)[..e.year - currentYear]
    ensures Projection(p, [e], currentYear)[e.year - currentYear].netWorth ==
            Projection(p, [], currentYear)[e.year - currentYear].netWorth - e.expense
  {
    var k := e.year - currentYear;
    assert MajorExpensesOfYear([e], currentYear + k) == e.expense;
    ScheduleEffect(p, [], [e], currentYear, k);
  }

  // ---------------------------------------------------------------------
  // Growth, caps and the steady state

  /** With a non-negative rate, a two-decimal amount within its cap never
      shrinks from one year to the next, and stays a two-decimal amount
      within the cap. */
  lemma GrowCappedNeverShrinks(x: real, pct: real, cap: real)
    requires pct >= 0.0 && 0.0 <= x <= cap
    requires IsCents(x) && IsCents(cap)
    ensures x <= GrowCapped(x, pct, cap) <= cap
    ensures IsCents(GrowCapped(x, pct, cap))
  {
    Round2Monotone(x, Grow(x, pct));
    Round2Idempotent(x);
    Round2Spec(Grow(x, pct));
  }

  /** Once income (expenses) has reached a two-decimal, non-negative cap
      under non-negative salary growth (inflation), it stays at the cap for
      the rest of the table. */
  lemma {:induction false} CapsStick(p: Params, es: seq<MajorExpense>, currentYear: int, i: nat, j: nat)
    requires i <= j
    ensures p.salaryIncrement >= 0.0 && 0.0 <= p.incomeCap && IsCents(p.incomeCap) &&
            RecordAt(p, es, currentYear, i).income == p.incomeCap
            ==> RecordAt(p, es, currentYear, j).income == p.incomeCap
    ensures p.inflationRate >= 0.0 && 0.0 <= p.expenseCap && IsCents(p.expenseCap) &&
            RecordAt(p, es, currentYear, i).expenses == p.expenseCap
            ==> RecordAt(p, es, currentYear, j).expenses == p.expenseCap
    decreases j - i
  {
    if i < j {
      if p.salaryIncrement >= 0.0 && 0.0 <= p.incomeCap && IsCents(p.incomeCap) {
        GrowCappedNeverShrinks(p.incomeCap, p.salaryIncrement, p.incomeCap);
      }
      if p.inflationRate >= 0.0 && 0.0 <= p.expenseCap && IsCents(p.expenseCap) {
        GrowCappedNeverShrinks(p.expenseCap, p.inflationRate, p.expenseCap);
      }
      CapsStick(p, es, currentYear, i + 1, j);
    }
  }

  /** The conditions under which income and expenses can only grow: growth
      rates not negative, and both amounts two-decimal, non-negative and
      within their two-decimal caps. */
  predicate GrowsWithinCaps(p: Params, r: Record) {
    && p.salaryIncrement >= 0.0 && p.inflationRate >= 0.0
    && 0.0 <= r.income <= p.incomeCap && IsCents(r.income) && IsCents(p.incomeCap)
    && 0.0 <= r.expenses <= p.expenseCap && IsCents(r.expenses) && IsCents(p.expenseCap)
  }

  /** One step keeps those conditions and does not lower income or expenses. */
  lemma NextNeverShrinks(p: Params, prev: Record, year: int, total: real)
    requires GrowsWithinCaps(p, prev)
    ensures GrowsWithinCaps(p, NextRecord(p, prev, year, total))
    ensures prev.income <= NextRecord(p, prev, year, total).income
    ensures prev.expenses <= NextRecord(p, prev, year, total).expenses
  {
    GrowCappedNeverShrinks(prev.income, p.salaryIncrement, p.incomeCap);
    GrowCappedNeverShrinks(prev.expenses, p.inflationRate, p.expenseCap);
  }

  /** Those conditions hold in every record when they hold in the baseline. */
  lemma {:induction false} StaysWithinCaps(p: Params, es: seq<MajorExpense>, currentYear: int, i: nat)
    requires GrowsWithinCaps(p, Baseline(p, currentYear))
    ensures GrowsWithinCaps(p, RecordAt(p, es, currentYear, i))
  {
    if i > 0 {
      StaysWithinCaps(p, es, currentYear, i - 1);
      var prev := RecordAt(p, es, currentYear, i - 1);
      var year := currentYear + i;
      assert RecordAt(p, es, currentYear, i) == NextRecord(p, prev, year, MajorExpensesOfYear(es, year));
      NextNeverShrinks(p, prev, year, MajorExpensesOfYear(es, year));
    }
  }

  /** Under non-negative salary growth and inflation, starting from
      two-decimal amounts within two-decimal caps, income and expenses never
      fall from one year to the next. */
  lemma IncomeAndExpensesNeverShrink(p: Params, es: seq<MajorExpense>, currentYear: int)
    requires p.salaryIncrement >= 0.0 && p.inflationRate >= 0.0
    requires 0.0 <= p.currentIncome <= p.incomeCap && IsCents(p.currentIncome) && IsCents(p.incomeCap)
    requires 0.0 <= p.currentExpenses <= p.expenseCap && IsCents(p.currentExpenses) && IsCents(p.expenseCap)
    ensures forall i :: 0 < i < |Projection(p, es, currentYear)| ==>
              Projection(p, es, currentYear)[i - 1].income <= Projection(p, es, currentYear)[i].income &&
              Projection(p, es, currentYear)[i - 1].expenses <= Projection(p, es, currentYear)[i].expenses
  {
    var r := Projection(p, es, currentYear);
    forall i | 0 < i < |r|
      ensures r[i - 1].income <= r[i].income && r[i - 1].expenses <= r[i].expenses
    {
      StaysWithinCaps(p, es, currentYear, i - 1);
      ProjectionAt(p, es, currentYear, i - 1);
      ProjectionAt(p, es, currentYear, i);
      var year := currentYear + i;
      NextNeverShrinks(p, r[i - 1], year, MajorExpensesOfYear(es, year));
    }
  }

  /** With no salary growth and no inflation, a step leaves two-decimal
      income and expenses within their caps unchanged. */
  lemma ZeroGrowthStep(p: Params, prev: Record, year: int, total: real)
    requires p.salaryIncrement == 0.0 && p.inflationRate == 0.0
    requires IsCents(prev.income) && prev.income <= p.incomeCap
    requires IsCents(prev.expenses) && prev.expenses <= p.expenseCap
    ensures NextRecord(p, prev, year, total).income == prev.income
    ensures NextRecord(p, prev, year, total).expenses == prev.expenses
  {
    Round2Idempotent(prev.income);
    Round2Idempotent(prev.expenses);
  }

  /** With no salary growth and no inflation, two-decimal baseline income and
      expenses within their caps never change, so neither does disposable income. */
  lemma {:induction false} ZeroGrowthAt(p: Params, es: seq<MajorExpense>, currentYear: int, i: nat)
    requires p.salaryIncrement == 0.0 && p.inflationRate == 0.0
    requires IsCents(p.currentIncome) && p.currentIncome <= p.incomeCap
    requires IsCents(p.currentExpenses) && p.currentExpenses <= p.expenseCap
    ensures RecordAt(p, es, currentYear, i).income == p.currentIncome
    ensures RecordAt(p, es, currentYear, i).expenses == p.currentExpenses
    ensures RecordAt(p, es, currentYear, i).disposableIncome == Round2(p.currentIncome - p.currentExpenses)
  {
    if i > 0 {
      ZeroGrowthAt(p, es, currentYear, i - 1);
      var year := currentYear + i;
      ZeroGrowthStep(p, RecordAt(p, es, currentYear, i - 1), year, MajorExpensesOfYear(es, year));
    }
  }

  lemma ZeroGrowthSteady(p: Params, es: seq<MajorExpense>, currentYear: int)
    requires p.salaryIncrement == 0.0 && p.inflationRate == 0.0
    requires IsCents(p.currentIncome) && p.currentIncome <= p.incomeCap
    requires IsCents(p.currentExpenses) && p.currentExpenses <= p.expenseCap
    ensures forall i :: 0 <= i < |Projection(p, es, currentYear)| ==>
              Projection(p, es, currentYear)[i].income == p.currentIncome &&
              Projection(p, es, currentYear)[i].expenses == p.currentExpenses &&
              Projection(p, es, currentYear)[i].disposableIncome == Projection(p, es, currentYear)[0].disposableIncome
  {
    var r := Projection(p, es, currentYear);
    forall i | 0 <= i < |r|
      ensures r[i].income == p.currentIncome && r[i].expenses == p.currentExpenses
      ensures r[i].disposableIncome == r[0].disposableIncome
    {
      ProjectionAt(p, es, currentYear, i);
      ZeroGrowthAt(p, es, currentYear, i);
      ZeroGrowthAt(p, es, currentYear, 0);
    }
  }

  /** Without portfolio growth and without a one-off expense that year, a
      two-decimal net worth grows by exactly the year's disposable income. */
  lemma NoGrowthStep(p: Params, prev: Record, year: int)
    requires p.portfolioGrowth == 0.0 && IsCents(prev.netWorth)
    ensures NextRecord(p, prev, year, 0.0).netWorth == prev.netWorth + NextRecord(p, prev, year, 0.0).disposableIncome
    ensures IsCents(NextRecord(p, prev, year, 0.0).netWorth)
  {
    var r := NextRecord(p, prev, year, 0.0);
    var d := r.disposableIncome;
    assert d == Round2(r.income - r.expenses);
    Round2Spec(r.income - r.expenses);
    CentsAddSub(prev.netWorth, d);
    Round2Idempotent(prev.netWorth + d);
  }

  /** With no portfolio growth, two-decimal savings and no one-off expense in
      the projected years, net worth stays a two-decimal amount and each year
      adds exactly that year's disposable income. */
  lemma {:induction false} NoGrowthNetWorthAt(p: Params, es: seq<MajorExpense>, currentYear: int, i: nat)
    requires p.portfolioGrowth == 0.0 && IsCents(p.currentSavings)
    requires forall y :: currentYear < y <= currentYear + i ==> MajorExpensesOfYear(es, y) == 0.0
    ensures IsCents(RecordAt(p, es, currentYear, i).netWorth)
    ensures i > 0 ==> RecordAt(p, es, currentYear, i).netWorth ==
                      RecordAt(p, es, currentYear, i - 1).netWorth + RecordAt(p, es, currentYear, i).disposableIncome
  {
    if i == 0 {
      Round2Spec(p.currentIncome - p.currentExpenses);
      CentsAddSub(Round2(p.currentIncome - p.currentExpenses), p.currentSavings);
    } else {
      NoGrowthNetWorthAt(p, es, currentYear, i - 1);
      var year := currentYear + i;
      assert MajorExpensesOfYear(es, year) == 0.0;
      NoGrowthStep(p, RecordAt(p, es, currentYear, i - 1), year);
    }
  }

  /** With no portfolio growth, two-decimal savings and no scheduled entry
      inside the projected years, each year's net worth is the previous one
      plus that year's disposable income. */
  lemma NoGrowthNetWorth(p: Params, es: seq<MajorExpense>, currentYear: int)
    requires p.portfolioGrowth == 0.0 && IsCents(p.currentSavings)
    requires forall j :: 0 <= j < |es| ==> es[j].year <= currentYear || es[j].year > YearOfDeath(p)
    ensures forall i :: 0 < i < |Projection(p, es, currentYear)| ==>
              Projection(p, es, currentYear)[i].netWorth ==
              Projection(p, es, currentYear)[i - 1].netWorth + Projection(p, es, currentYear)[i].disposableIncome
  {
    var r := Projection(p, es, currentYear);
    forall i | 0 < i < |r|
      ensures r[i].netWorth == r[i - 1].netWorth + r[i].disposableIncome
    {
      forall y | currentYear < y <= currentYear + i ensures MajorExpensesOfYear(es, y) == 0.0 {
      }
      ProjectionAt(p, es, currentYear, i);
      ProjectionAt(p, es, currentYear, i - 1);
      NoGrowthNetWorthAt(p, es, currentYear, i);
    }
  }

  // ---------------------------------------------------------------------
  // The default inputs of the calculator's form

  /** The form's default run: income 1200000, expenses 600000, caps 10000000
      and 7500000, retirement expenses 7500000, born 1997, living to 60, all
      rates 10%, no savings. */
  function DefaultParams(): Params {
    Params(1200000.0, 600000.0, 10000000.0, 7500000.0, 1997, 60,
           10.0, 10.0, 10.0, 7500000.0, 0.0)
  }

  /** For any current year before 2030: the target is 187500000, the first
      record has disposable income and net worth 600000, and the default
      house of 8000000 in 2030 lowers the 2030 net worth by exactly 8000000
      against the same run without it. */
  lemma DefaultScenario(currentYear: int)
    requires currentYear < 2030
    ensures Projection(DefaultParams(), [MajorExpense(2030, 8000000.0)], currentYear)[0].fireTarget == 187500000.0
    ensures Projection(DefaultParams(), [MajorExpense(2030, 8000000.0)], currentYear)[0].disposableIncome == 600000.0
    ensures Projection(DefaultParams(), [MajorExpense(2030, 8000000.0)], currentYear)[0].netWorth == 600000.0
    ensures Projection(DefaultParams(), [MajorExpense(2030, 8000000.0)], currentYear)[2030 - currentYear].netWorth ==
            Projection(DefaultParams(), [], currentYear)[2030 - currentYear].netWorth - 8000000.0
  {
    Round2Idempotent(600000.0);
    SingleMajorExpense(DefaultParams(), currentYear, MajorExpense(2030, 8000000.0));
  }
}
