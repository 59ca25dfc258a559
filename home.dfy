/** The home dashboard: the totals of bills, debts and savings goals, the
    savings and debt-payoff percentages, the expected paycheck, and which
    view the page shows. */
module Home {
  import opened Common
  import opened Records

  function DebtBalance(d: Debt): real { Or0(d.balance) }
  function GoalTarget(g: SavingsGoal): real { Or0(g.targetAmount) }
  function GoalCurrent(g: SavingsGoal): real { Or0(g.currentAmount) }

  /** `d.original_balance || d.balance || 0`. */
  function OriginalAmount(d: Debt): (r: real)
    ensures Truthy(d.originalBalance) ==> r == d.originalBalance.value
    ensures !Truthy(d.originalBalance) ==> r == Or0(d.balance)
  {
    if Truthy(d.originalBalance) then d.originalBalance.value else Or0(d.balance)
  }

  function TotalDebts(debts: seq<Debt>): real { SumOf(debts, DebtBalance) }
  function TotalOriginalDebt(debts: seq<Debt>): real { SumOf(debts, OriginalAmount) }
  function TotalSavingsGoals(goals: seq<SavingsGoal>): real { SumOf(goals, GoalTarget) }
  function CurrentSavings(goals: seq<SavingsGoal>): real { SumOf(goals, GoalCurrent) }

  /** `whole > 0 ? Math.round((part / whole) * 100) : 0`. */
  function Percentage(part: real, whole: real): (r: int)
    ensures whole <= 0.0 ==> r == 0
    ensures whole > 0.0 ==> r as real - 0.5 <= part / whole * 100.0 < r as real + 0.5
  {
    if whole > 0.0 then Round(part / whole * 100.0) else 0
  }

  /** A part between nothing and the whole is between 0 and 100 percent of
      it, and the whole itself is exactly 100 percent. */
  lemma PercentageBounds(part: real, whole: real)
    requires whole > 0.0 && 0.0 <= part <= whole
    ensures 0 <= Percentage(part, whole) <= 100
    ensures part == whole ==> Percentage(part, whole) == 100
    ensures part == 0.0 ==> Percentage(part, whole) == 0
  {
    var q := part / whole;
    ShareBounds(part, whole);
    if part == whole {
      assert q * 100.0 == 100.0;
    }
  }

  /** A share of a positive whole lies between nothing and all of it. */
  lemma ShareBounds(part: real, whole: real)
    requires whole > 0.0 && 0.0 <= part <= whole
    ensures 0.0 <= part / whole <= 1.0
  {
    var q := part / whole;
    assert q * whole == part;
    assert (1.0 - q) * whole == whole - part;
  }

  function SavingsProgress(goals: seq<SavingsGoal>): int {
    Percentage(CurrentSavings(goals), TotalSavingsGoals(goals))
  }

  function DebtProgress(debts: seq<Debt>): int {
    Percentage(TotalOriginalDebt(debts) - TotalDebts(debts), TotalOriginalDebt(debts))
  }

  /** When no goal has saved below nothing or beyond its target, the savings
      progress is between 0 and 100, and 0 when there is no target at all. */
  lemma SavingsProgressBounds(goals: seq<SavingsGoal>)
    requires forall g :: g in goals ==> 0.0 <= GoalCurrent(g) <= GoalTarget(g)
    ensures 0 <= SavingsProgress(goals) <= 100
    ensures TotalSavingsGoals(goals) == 0.0 ==> SavingsProgress(goals) == 0
  {
    SumOfMonotone(goals, GoalCurrent, GoalTarget);
    SumOfMonotone(goals, Zero, GoalCurrent);
    SumOfZero(goals);
    if TotalSavingsGoals(goals) > 0.0 {
      PercentageBounds(CurrentSavings(goals), TotalSavingsGoals(goals));
    }
  }

  /** When every debt's balance lies between nothing and its original
      amount, the payoff progress is between 0 and 100: 0 while every
      balance is still the original amount, 100 once every balance is paid. */
  lemma DebtProgressBounds(debts: seq<Debt>)
    requires forall d :: d in debts ==> 0.0 <= DebtBalance(d) <= OriginalAmount(d)
    ensures 0 <= DebtProgress(debts) <= 100
    ensures (forall d :: d in debts ==> DebtBalance(d) == OriginalAmount(d)) ==> DebtProgress(debts) == 0
    ensures TotalOriginalDebt(debts) > 0.0 && (forall d :: d in debts ==> DebtBalance(d) == 0.0)
            ==> DebtProgress(debts) == 100
  {
    var original := TotalOriginalDebt(debts);
    var current := TotalDebts(debts);
    SumOfMonotone(debts, DebtBalance, OriginalAmount);
    SumOfMonotone(debts, Zero, DebtBalance);
    SumOfZero(debts);
    if original > 0.0 {
      PercentageBounds(original - current, original);
    }
    if forall d :: d in debts ==> DebtBalance(d) == OriginalAmount(d) {
      SumOfMonotone(debts, OriginalAmount, DebtBalance);
    }
    if forall d :: d in debts ==> DebtBalance(d) == 0.0 {
      SumOfMonotone(debts, DebtBalance, Zero);
    }
  }

  function Zero<T>(x: T): real { 0.0 }

  lemma {:induction false} SumOfZero<T>(s: seq<T>)
    ensures SumOf(s, Zero) == 0.0
  {
    if s != [] {
      SumOfZero(s[1..]);
    }
  }

  /** `primaryIncome?.paycheck_amount || 0`: the first primary income's
      paycheck, else the first income's, else 0. */
  function ExpectedAmount(incomes: seq<Income>): (r: real)
    ensures incomes == [] ==> r == 0.0
  {
    PaycheckAmount(PrimaryIncome(incomes))
  }

  /** The expected paycheck comes from the first income marked primary. */
  lemma ExpectedFromPrimary(incomes: seq<Income>, k: nat)
    requires k < |incomes| && incomes[k].isPrimary
    requires forall j :: 0 <= j < k ==> !incomes[j].isPrimary
    ensures ExpectedAmount(incomes) == Or0(incomes[k].paycheckAmount)
  {
  }

  datatype View = Loading | Onboarding | Dashboard

  /** The loading view while the budget query runs, then the onboarding
      flow when the user has no budget, and the dashboard otherwise. */
  function HomeView(budgetLoading: bool, budgets: seq<Budget>): (v: View)
    ensures v == Loading <==> budgetLoading
    ensures v == Onboarding <==> !budgetLoading && budgets == []
    ensures v == Dashboard <==> !budgetLoading && budgets != []
  {
    if budgetLoading then Loading else if budgets == [] then Onboarding else Dashboard
  }
}
