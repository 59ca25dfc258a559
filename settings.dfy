/** The settings page: the bucket percentages the form starts from, the
    warning when they do not add up to 100, and the monthly income that
    saving computes from every income stream. */
module Settings {
  import opened Common
  import opened Records

  // ---- monthly income ------------------------------------------------------------

  /** The `switch` on the pay frequency: a paycheck's monthly equivalent,
      NaN (`None`) when the paycheck amount is. Any frequency other than the
      four named ones counts the paycheck once a month. */
  function MonthlyAmount(frequency: string, amount: Option<real>): (r: Option<real>)
    ensures r.Some? <==> amount.Some?
  {
    match amount
    case None => None
    case Some(a) =>
      Some(if frequency == "weekly" then a * 52.0 / 12.0
           else if frequency == "biweekly" then a * 26.0 / 12.0
           else if frequency == "semimonthly" then a * 2.0
           else a)
  }

  /** Paychecks per year for each frequency; 12 for any other. */
  function PaychecksPerYear(frequency: string): real {
    if frequency == "weekly" then 52.0
    else if frequency == "biweekly" then 26.0
    else if frequency == "semimonthly" then 24.0
    else 12.0
  }

  /** Twelve monthly amounts are the year's paychecks: 52 weekly, 26
      biweekly, 24 semimonthly, and 12 monthly or otherwise. */
  lemma MonthlyAmountIsYearOverTwelve(frequency: string, a: real)
    ensures MonthlyAmount(frequency, Some(a)).value * 12.0 == a * PaychecksPerYear(frequency)
  {
  }

  /** `total += monthlyAmount`, where NaN absorbs everything added to it. */
  function AddAmount(total: Option<real>, x: Option<real>): Option<real> {
    if total.Some? && x.Some? then Some(total.value + x.value) else None
  }

  /** The monthly income of a list of incomes, added up from the first. */
  function MonthlyIncome(incomes: seq<Income>): Option<real> {
    if incomes == [] then Some(0.0)
    else
      var last := incomes[|incomes| - 1];
      AddAmount(MonthlyIncome(incomes[..|incomes| - 1]), MonthlyAmount(last.payFrequency, last.paycheckAmount))
  }

  /** The loop of `handleSave` that adds up the monthly amounts of all incomes. */
  method TotalMonthlyIncome(incomes: seq<Income>) returns (total: Option<real>)
    ensures total == MonthlyIncome(incomes)
  {
    total := Some(0.0);
    for i := 0 to |incomes|
      invariant total == MonthlyIncome(incomes[..i])
    {
      var income := incomes[i];
      var monthly := MonthlyAmount(income.payFrequency, income.paycheckAmount);
      assert incomes[..i + 1][..i] == incomes[..i];
      total := AddAmount(total, monthly);
    }
    assert incomes[..|incomes|] == incomes;
  }

  /** The monthly income is a number exactly when every paycheck amount is,
      and then it is the sum of the monthly amounts in any order of adding:
      an income list made of two parts gives the sum of the two parts. */
  lemma {:induction false} MonthlyIncomeDefined(incomes: seq<Income>)
    ensures MonthlyIncome(incomes).Some? <==> forall k :: 0 <= k < |incomes| ==> incomes[k].paycheckAmount.Some?
  {
    if incomes != [] {
      var init := incomes[..|incomes| - 1];
      MonthlyIncomeDefined(init);
      assert forall k :: 0 <= k < |init| ==> init[k] == incomes[k];
    }
  }

  /** Adding one more income adds its monthly amount. */
  lemma {:induction false} MonthlyIncomeAppend(a: seq<Income>, b: seq<Income>)
    requires MonthlyIncome(a).Some? && MonthlyIncome(b).Some?
    ensures MonthlyIncome(a + b) == Some(MonthlyIncome(a).value + MonthlyIncome(b).value)
    decreases |b|
  {
    if b == [] {
      assert a + b == a;
    } else {
      var init := b[..|b| - 1];
      var last := b[|b| - 1];
      assert (a + b)[..|a + b| - 1] == a + init;
      MonthlyIncomeDefined(b);
      MonthlyIncomeDefined(init);
      MonthlyIncomeAppend(a, init);
    }
  }

  /** A single income's monthly income is its monthly amount. */
  lemma MonthlyIncomeSingle(income: Income)
    ensures MonthlyIncome([income]) == MonthlyAmount(income.payFrequency, income.paycheckAmount)
  {
    assert [income][..0] == [];
  }

  // ---- the percentage form ---------------------------------------------------------

  /** The form's three percentages; `None` is NaN from an emptied input. */
  datatype Percentages = Percentages(bills: Option<real>, spending: Option<real>, savings: Option<real>)

  /** `x || fallback` on a stored percentage. */
  function OrDefault(x: Option<real>, fallback: real): (r: Option<real>)
    ensures Truthy(x) ==> r == x
    ensures !Truthy(x) ==> r == Some(fallback)
  {
    if Truthy(x) then x else Some(fallback)
  }

  /** The form's starting values: the stored percentages, each replaced by
      50, 30 or 20 when it is falsy (missing, NaN or 0) or there is no budget. */
  function FormDefaults(budget: Option<Budget>): (f: Percentages)
    ensures budget.None? ==> f == Percentages(Some(50.0), Some(30.0), Some(20.0))
    ensures budget.Some? ==> f == Percentages(OrDefault(budget.value.billsPercentage, 50.0),
                                              OrDefault(budget.value.spendingPercentage, 30.0),
                                              OrDefault(budget.value.savingsPercentage, 20.0))
  {
    match budget
    case None => Percentages(Some(50.0), Some(30.0), Some(20.0))
    case Some(b) =>
      Percentages(OrDefault(b.billsPercentage, 50.0), OrDefault(b.spendingPercentage, 30.0),
                  OrDefault(b.savingsPercentage, 20.0))
  }

  /** The form never starts from a percentage that is 0 or NaN, and a stored
      0 is replaced even though it is a valid percentage. */
  lemma FormDefaultsAreTruthy(budget: Option<Budget>)
    ensures var f := FormDefaults(budget);
            Truthy(f.bills) && Truthy(f.spending) && Truthy(f.savings)
    ensures budget.Some? && budget.value.billsPercentage == Some(0.0) ==> FormDefaults(budget).bills == Some(50.0)
  {
  }

  /** The sum `bills + spending + savings`, NaN when any of them is. */
  function Total(f: Percentages): Option<real> {
    AddAmount(AddAmount(f.bills, f.spending), f.savings)
  }

  /** "should equal 100%" is shown when the sum is not 100, NaN included. */
  predicate ShowsWarning(f: Percentages) {
    Total(f) != Some(100.0)
  }

  /** The warning is shown exactly when the three numbers do not add up to 100. */
  lemma WarningIff(f: Percentages)
    ensures ShowsWarning(f) <==>
              !(f.bills.Some? && f.spending.Some? && f.savings.Some?
                && f.bills.value + f.spending.value + f.savings.value == 100.0)
  {
  }

  /** The defaults 50/30/20 add up to 100, so a budget whose three stored
      percentages are all falsy shows no warning. */
  lemma DefaultsShowNoWarning(budget: Option<Budget>)
    requires budget.Some? ==> !Truthy(budget.value.billsPercentage) && !Truthy(budget.value.spendingPercentage)
                               && !Truthy(budget.value.savingsPercentage)
    ensures !ShowsWarning(FormDefaults(budget))
  {
  }

  // ---- saving ------------------------------------------------------------------------

  /** `handleSave`: nothing is written without a budget; otherwise the budget
      takes the form's percentages and the monthly income of all incomes. */
  function Save(budget: Option<Budget>, f: Percentages, incomes: seq<Income>): (r: Option<Budget>)
    ensures r.None? <==> budget.None?
    ensures r.Some? ==> r.value.billsPercentage == f.bills && r.value.spendingPercentage == f.spending
                        && r.value.savingsPercentage == f.savings
    ensures r.Some? ==> r.value.monthlyIncome == MonthlyIncome(incomes)
  {
    match budget
    case None => None
    case Some(b) => Some(Budget(MonthlyIncome(incomes), f.bills, f.spending, f.savings))
  }

  /** Saving with no incomes stores a monthly income of 0. */
  lemma SaveWithoutIncomes(budget: Budget, f: Percentages)
    ensures Save(Some(budget), f, []).value.monthlyIncome == Some(0.0)
  {
  }
}
