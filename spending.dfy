/** The spending page: the monthly spending allocation and the total of
    this month's expenses. */
module Spending {
  import opened Common
  import opened Civil
  import opened Records

  /** `budget ? monthly_income * (spending_percentage / 100) : 0`. */
  function SpendingAllocation(budget: Option<Budget>): (r: Option<real>)
    ensures budget.None? ==> r == Some(0.0)
    ensures budget.Some? ==> r == PercentOf(budget.value.monthlyIncome, budget.value.spendingPercentage)
  {
    if budget.Some? then PercentOf(budget.value.monthlyIncome, budget.value.spendingPercentage) else Some(0.0)
  }

  /** With a budget holding both numbers the allocation is that share of the
      monthly income; a share from 0 to 100 percent of a non-negative income
      lies between nothing and the whole income. */
  lemma SpendingAllocationShare(budget: Budget, income: real, pct: real)
    requires budget.monthlyIncome == Some(income) && budget.spendingPercentage == Some(pct)
    ensures SpendingAllocation(Some(budget)).Some?
    ensures SpendingAllocation(Some(budget)).value * 100.0 == income * pct
    ensures income >= 0.0 && 0.0 <= pct <= 100.0 ==> 0.0 <= SpendingAllocation(Some(budget)).value <= income
  {
    if income >= 0.0 && 0.0 <= pct <= 100.0 {
      assert income * pct <= income * 100.0;
    }
  }

  /** The filter of `monthlySpending`: an expense whose date falls in the
      month and year of the day `today`; a date that does not parse never does. */
  predicate CountsThisMonth(t: Transaction, today: int) {
    && t.kind == "expense"
    && var d := IsoDay(t.date);
    && d.Some?
    && GetMonth(d.value) == GetMonth(today)
    && GetFullYear(d.value) == GetFullYear(today)
  }

  function ThisMonthExpenses(txs: seq<Transaction>, today: int): (r: seq<Transaction>)
    ensures forall t :: t in r <==> t in txs && CountsThisMonth(t, today)
  {
    if txs == [] then []
    else
      var rest := ThisMonthExpenses(txs[1..], today);
      if CountsThisMonth(txs[0], today) then [txs[0]] + rest else rest
  }

  function TxAmount(t: Transaction): real { Or0(t.amount) }

  /** `transactions.filter(...).reduce((sum, t) => sum + (t.amount || 0), 0)`
      at the instant `nowMs`. */
  function MonthlySpending(txs: seq<Transaction>, nowMs: int): real {
    SumOf(ThisMonthExpenses(txs, nowMs / MsPerDay), TxAmount)
  }

  /** For a well-formed `YYYY-MM-DD` date, counting in this month means
      having this month's year and month written in the date. */
  lemma CountsIffSameMonth(t: Transaction, today: int)
    requires IsoShape(t.date) && Valid(IsoFields(t.date))
    ensures CountsThisMonth(t, today) <==>
              t.kind == "expense"
              && IsoFields(t.date).year == CivilFromDays(today).year
              && IsoFields(t.date).month == CivilFromDays(today).month
  {
    CivilRoundTrip(IsoFields(t.date));
  }

  /** The spending of two lists of transactions is the spending of each,
      added; no transaction is counted twice or left out. */
  lemma {:induction false} MonthlySpendingAppend(a: seq<Transaction>, b: seq<Transaction>, nowMs: int)
    ensures MonthlySpending(a + b, nowMs) == MonthlySpending(a, nowMs) + MonthlySpending(b, nowMs)
  {
    var today := nowMs / MsPerDay;
    if a == [] {
      assert a + b == b;
    } else {
      assert (a + b)[1..] == a[1..] + b;
      assert (a + b)[0] == a[0];
      MonthlySpendingAppend(a[1..], b, nowMs);
    }
  }

  /** There is no spending without transactions, and a transaction that is
      not a counted expense of this month adds nothing, whatever its amount. */
  lemma MonthlySpendingIgnores(txs: seq<Transaction>, t: Transaction, nowMs: int)
    requires !CountsThisMonth(t, nowMs / MsPerDay)
    ensures MonthlySpending([], nowMs) == 0.0
    ensures MonthlySpending(txs + [t], nowMs) == MonthlySpending(txs, nowMs)
  {
    MonthlySpendingAppend(txs, [t], nowMs);
    SpendingOfOne(t, nowMs);
  }

  /** A counted expense adds its amount, 0 when it has none. */
  lemma MonthlySpendingCounts(txs: seq<Transaction>, t: Transaction, nowMs: int)
    requires CountsThisMonth(t, nowMs / MsPerDay)
    ensures MonthlySpending(txs + [t], nowMs) == MonthlySpending(txs, nowMs) + Or0(t.amount)
  {
    MonthlySpendingAppend(txs, [t], nowMs);
    SpendingOfOne(t, nowMs);
  }

  lemma SpendingOfOne(t: Transaction, nowMs: int)
    ensures MonthlySpending([t], nowMs) == if CountsThisMonth(t, nowMs / MsPerDay) then Or0(t.amount) else 0.0
  {
    var today := nowMs / MsPerDay;
    ExpensesOfOne(t, today);
    if CountsThisMonth(t, today) {
      SumOfOne(t, TxAmount);
    }
  }

  lemma ExpensesOfOne(t: Transaction, today: int)
    ensures ThisMonthExpenses([t], today) == if CountsThisMonth(t, today) then [t] else []
  {
    assert [t][1..] == [];
    assert ThisMonthExpenses([t][1..], today) == [];
  }
}
