/** The records the app reads from and writes to its entity store, and the
    two rules several pages share: which income is the primary one, and how
    a list of bills is totalled. */
module Records {
  import opened Common

  /** An income stream. `payFrequency` and `nextPayday` are text as stored;
      the empty string stands for a field that is not set. */
  datatype Income = Income(
    name: string,
    paycheckAmount: Option<real>,
    payFrequency: string,
    nextPayday: string,
    isPrimary: bool)

  /** A bill. `dueDate` and `lastAllocatedDate` are `YYYY-MM-DD` text, empty when not set. */
  datatype Bill = Bill(
    name: string,
    amount: Option<real>,
    dueDate: string,
    category: string,
    frequency: string,
    notes: string,
    isAutopay: bool,
    allocatedAmount: Option<real>,
    lastAllocatedDate: string)

  /** The user's budget: a monthly income and the three bucket percentages,
      each `None` when missing or NaN. */
  datatype Budget = Budget(
    monthlyIncome: Option<real>,
    billsPercentage: Option<real>,
    spendingPercentage: Option<real>,
    savingsPercentage: Option<real>)

  /** `amount * (pct / 100)`, NaN (`None`) when either number is. */
  function PercentOf(amount: Option<real>, pct: Option<real>): (r: Option<real>)
    ensures r.Some? <==> amount.Some? && pct.Some?
    ensures r.Some? ==> r.value * 100.0 == amount.value * pct.value
  {
    if amount.Some? && pct.Some? then Some(amount.value * (pct.value / 100.0)) else None
  }

  datatype Debt = Debt(
    id: nat,
    name: string,
    balance: Option<real>,
    originalBalance: Option<real>,
    minimumPayment: Option<real>,
    apr: Option<real>,
    dueDay: Option<int>,
    statementDay: Option<int>,
    kind: string,
    linkedAssetId: Option<string>)

  datatype SavingsGoal = SavingsGoal(name: string, targetAmount: Option<real>, currentAmount: Option<real>)

  /** A spending record; `kind` is `'expense'` or `'income'`, `date` is `YYYY-MM-DD` text. */
  datatype Transaction = Transaction(description: string, kind: string, date: string, amount: Option<real>)

  /** `incomes.findIndex(i => i.is_primary)`, as an option. */
  function FirstPrimary(incomes: seq<Income>): (r: Option<nat>)
    ensures r.Some? ==> r.value < |incomes| && incomes[r.value].isPrimary
    ensures r.Some? ==> forall j :: 0 <= j < r.value ==> !incomes[j].isPrimary
    ensures r.None? ==> forall j :: 0 <= j < |incomes| ==> !incomes[j].isPrimary
  {
    if incomes == [] then None
    else if incomes[0].isPrimary then Some(0)
    else
      match FirstPrimary(incomes[1..])
      case None => None
      case Some(k) => Some(k + 1)
  }

  /** `incomes.find(i => i.is_primary) || incomes[0]`: the first income marked
      primary, else the first income, and none when there are no incomes. */
  function PrimaryIncome(incomes: seq<Income>): (r: Option<Income>)
    ensures r.None? <==> incomes == []
    ensures forall k :: 0 <= k < |incomes| && incomes[k].isPrimary
                        && (forall j :: 0 <= j < k ==> !incomes[j].isPrimary)
                        ==> r == Some(incomes[k])
    ensures incomes != [] && (forall j :: 0 <= j < |incomes| ==> !incomes[j].isPrimary)
            ==> r == Some(incomes[0])
  {
    match FirstPrimary(incomes)
    case Some(k) => Some(incomes[k])
    case None => if incomes == [] then None else Some(incomes[0])
  }

  /** `primaryIncome?.paycheck_amount || 0`. */
  function PaycheckAmount(primary: Option<Income>): (r: real)
    ensures primary.None? ==> r == 0.0
    ensures primary.Some? ==> r == Or0(primary.value.paycheckAmount)
  {
    if primary.Some? then Or0(primary.value.paycheckAmount) else 0.0
  }

  function BillAmount(b: Bill): real { Or0(b.amount) }
  function BillAllocated(b: Bill): real { Or0(b.allocatedAmount) }

  /** `bills.reduce((sum, b) => sum + (b.amount || 0), 0)`. */
  function TotalAmount(bills: seq<Bill>): real {
    SumOf(bills, BillAmount)
  }

  /** `bills.reduce((sum, b) => sum + (b.allocated_amount || 0), 0)`. */
  function TotalAllocated(bills: seq<Bill>): real {
    SumOf(bills, BillAllocated)
  }

  /** The total of a list made of two parts is the sum of their totals. */
  lemma {:induction false} TotalAmountAppend(a: seq<Bill>, b: seq<Bill>)
    ensures TotalAmount(a + b) == TotalAmount(a) + TotalAmount(b)
  {
    if a != [] {
      assert (a + b)[1..] == a[1..] + b;
      TotalAmountAppend(a[1..], b);
    } else {
      assert a + b == b;
    }
  }

  /** With no negative amounts, the total is at least every single amount
      and never negative. */
  lemma {:induction false} TotalAmountBounds(bills: seq<Bill>)
    requires forall b :: b in bills ==> Or0(b.amount) >= 0.0
    ensures TotalAmount(bills) >= 0.0
    ensures forall i :: 0 <= i < |bills| ==> Or0(bills[i].amount) <= TotalAmount(bills)
  {
    if bills != [] {
      TotalAmountBounds(bills[1..]);
      forall i | 1 <= i < |bills|
        ensures Or0(bills[i].amount) <= TotalAmount(bills)
      {
        assert bills[i] == bills[1..][i - 1];
      }
    }
  }
}
