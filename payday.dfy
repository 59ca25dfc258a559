/** The Payday page: what one paycheck puts in each bucket, which bills are
    due before the next payday, and what marking the payday complete writes
    back to the store. */
module Payday {
  import opened Common
  import opened Civil
  import opened Records

  // ---- what the page derives from the primary income -------------------------

  /** `primaryIncome?.pay_frequency || 'biweekly'`, the frequency the page shows. */
  function ShownFrequency(primary: Option<Income>): string {
    if primary.Some? && primary.value.payFrequency != "" then primary.value.payFrequency else "biweekly"
  }

  /** `primaryIncome?.next_payday`, empty when unset. */
  function NextPaydayText(primary: Option<Income>): string {
    if primary.Some? then primary.value.nextPayday else ""
  }

  /** The paycheck and the displayed frequency fall back to 0 and
      `'biweekly'` when there is no income at all. */
  lemma NoIncomeDefaults(incomes: seq<Income>)
    requires incomes == []
    ensures PaycheckAmount(PrimaryIncome(incomes)) == 0.0
    ensures ShownFrequency(PrimaryIncome(incomes)) == "biweekly"
    ensures NextPaydayText(PrimaryIncome(incomes)) == ""
  {
  }

  // ---- the three buckets ------------------------------------------------------------

  /** The three bucket amounts; `None` is NaN, from a missing percentage. */
  datatype Buckets = Buckets(bills: Option<real>, spending: Option<real>, savings: Option<real>)

  /** `budget ? paycheck * (pct / 100) : 0` for each bucket. */
  function BucketAmounts(paycheck: real, budget: Option<Budget>): (b: Buckets)
    ensures budget.None? ==> b == Buckets(Some(0.0), Some(0.0), Some(0.0))
  {
    match budget
    case None => Buckets(Some(0.0), Some(0.0), Some(0.0))
    case Some(bg) =>
      Buckets(PercentOf(Some(paycheck), bg.billsPercentage),
              PercentOf(Some(paycheck), bg.spendingPercentage),
              PercentOf(Some(paycheck), bg.savingsPercentage))
  }

  /** Each bucket is its percentage of the paycheck and nothing else; when
      the percentages add up to 100 the buckets share out the whole
      paycheck, and with percentages from 0 to 100 each bucket lies between
      nothing and the whole paycheck. */
  lemma BucketsShareThePaycheck(paycheck: real, bg: Budget, bills: real, spending: real, savings: real)
    requires bg.billsPercentage == Some(bills)
    requires bg.spendingPercentage == Some(spending)
    requires bg.savingsPercentage == Some(savings)
    ensures var b := BucketAmounts(paycheck, Some(bg));
            && b.bills.Some? && b.spending.Some? && b.savings.Some?
            && b.bills.value * 100.0 == paycheck * bills
            && b.spending.value * 100.0 == paycheck * spending
            && b.savings.value * 100.0 == paycheck * savings
            && (bills + spending + savings == 100.0
                ==> b.bills.value + b.spending.value + b.savings.value == paycheck)
            && (paycheck >= 0.0 && 0.0 <= bills <= 100.0 ==> 0.0 <= b.bills.value <= paycheck)
            && (paycheck >= 0.0 && 0.0 <= spending <= 100.0 ==> 0.0 <= b.spending.value <= paycheck)
            && (paycheck >= 0.0 && 0.0 <= savings <= 100.0 ==> 0.0 <= b.savings.value <= paycheck)
  {
    var b := BucketAmounts(paycheck, Some(bg));
    assert (b.bills.value + b.spending.value + b.savings.value) * 100.0
        == paycheck * (bills + spending + savings);
    if paycheck >= 0.0 && 0.0 <= bills <= 100.0 {
      assert paycheck * bills <= paycheck * 100.0;
    }
    if paycheck >= 0.0 && 0.0 <= spending <= 100.0 {
      assert paycheck * spending <= paycheck * 100.0;
    }
    if paycheck >= 0.0 && 0.0 <= savings <= 100.0 {
      assert paycheck * savings <= paycheck * 100.0;
    }
  }

  /** A percentage that is missing makes its bucket NaN, and only that bucket. */
  lemma MissingPercentage(paycheck: real, bg: Budget)
    ensures var b := BucketAmounts(paycheck, Some(bg));
            && (b.bills.None? <==> bg.billsPercentage.None?)
            && (b.spending.None? <==> bg.spendingPercentage.None?)
            && (b.savings.None? <==> bg.savingsPercentage.None?)
  {
  }

  // ---- the bills due before the next payday -----------------------------------------

  /** The instant `paydayDate`: 23:59:59.999 on the payday, or today's
      midnight when no payday is set; `None` for an Invalid Date. */
  function PaydayEnd(nextPayday: string, today: int): Option<int> {
    if nextPayday == "" then Some(today * MsPerDay)
    else
      match ParseDay(nextPayday)
      case None => None
      case Some(p) => Some(p * MsPerDay + MsPerDay - 1)
  }

  /** The `billsDueNow` filter on one bill: it has a due date whose midnight
      lies between today's midnight and the end of the payday. */
  predicate DueNow(bill: Bill, today: int, paydayEnd: Option<int>) {
    && bill.dueDate != ""
    && var due := ParseDay(bill.dueDate);
    && due.Some?
    && due.value * MsPerDay >= today * MsPerDay
    && paydayEnd.Some? && due.value * MsPerDay <= paydayEnd.value
  }

  /** The last calendar day of the window: the payday, or today without one. */
  function LastDueDay(nextPayday: string, today: int): Option<int> {
    if nextPayday == "" then Some(today) else ParseDay(nextPayday)
  }

  /** A bill is due now exactly when it has a due date and that calendar day
      lies in the inclusive window from today to the next payday; with no
      payday set the window is today alone. */
  lemma DueNowIffInWindow(bill: Bill, today: int, nextPayday: string)
    ensures DueNow(bill, today, PaydayEnd(nextPayday, today))
        <==> && bill.dueDate != ""
             && ParseDay(bill.dueDate).Some?
             && LastDueDay(nextPayday, today).Some?
             && today <= ParseDay(bill.dueDate).value <= LastDueDay(nextPayday, today).value
    ensures nextPayday == "" ==> LastDueDay(nextPayday, today) == Some(today)
  {
    var due := ParseDay(bill.dueDate);
    var last := LastDueDay(nextPayday, today);
    if due.Some? && last.Some? {
      DayWindow(due.value, today, last.value, nextPayday == "");
    }
  }

  /** Comparing midnights and end-of-day instants is comparing days. */
  lemma DayWindow(d: int, today: int, last: int, endIsMidnight: bool)
    ensures d * MsPerDay >= today * MsPerDay <==> d >= today
    ensures endIsMidnight ==> (d * MsPerDay <= last * MsPerDay <==> d <= last)
    ensures d * MsPerDay <= last * MsPerDay + MsPerDay - 1 <==> d <= last
  {
    if d > last {
      assert d * MsPerDay >= (last + 1) * MsPerDay;
    }
    if d < today {
      assert d * MsPerDay <= (today - 1) * MsPerDay;
    }
  }

  /** `bills.filter(...)` with the `DueNow` test, keeping the order. */
  function BillsDueNow(bills: seq<Bill>, today: int, paydayEnd: Option<int>): (r: seq<Bill>)
    ensures |r| <= |bills|
    ensures forall b :: b in r <==> b in bills && DueNow(b, today, paydayEnd)
  {
    if bills == [] then []
    else
      var rest := BillsDueNow(bills[1..], today, paydayEnd);
      if DueNow(bills[0], today, paydayEnd) then [bills[0]] + rest else rest
  }

  /** The due list keeps the due bills in their order, each as often as it
      occurs, and drops every other bill; the history's allocation entries
      are built from it in that order. */
  lemma {:induction false} BillsDueNowKeepsOrder(bills: seq<Bill>, today: int, paydayEnd: Option<int>)
    ensures Subsequence(BillsDueNow(bills, today, paydayEnd), bills)
    ensures forall b :: multiset(BillsDueNow(bills, today, paydayEnd))[b]
                        == if DueNow(b, today, paydayEnd) then multiset(bills)[b] else 0
  {
    if bills != [] {
      var r := BillsDueNow(bills, today, paydayEnd);
      var rest := BillsDueNow(bills[1..], today, paydayEnd);
      BillsDueNowKeepsOrder(bills[1..], today, paydayEnd);
      assert bills == [bills[0]] + bills[1..];
      if DueNow(bills[0], today, paydayEnd) {
        assert r[1..] == rest;
      } else {
        SubsequenceOfTail(rest, bills);
      }
    }
  }

  /** `totalUnallocated`: everything billed minus everything already allocated. */
  function TotalUnallocated(bills: seq<Bill>): real {
    TotalAmount(bills) - TotalAllocated(bills)
  }

  // ---- marking the payday complete ------------------------------------------------------

  /** One entry of the history's `bills_allocated`. */
  datatype AllocatedBill = AllocatedBill(
    billName: string,
    amountDue: Option<real>,
    amountAllocated: Option<real>,
    dueDate: string,
    wasAutopay: bool)

  /** The payday history record; its debt and savings-goal lists are empty
      and its two unallocated fields 0 in every record the page writes. */
  datatype PaydayHistory = PaydayHistory(
    paydayDate: string,
    paycheckAmount: real,
    buckets: Buckets,
    billsAllocated: seq<AllocatedBill>)

  datatype Completion =
    | NoPrimaryIncome                                   // the handler returns at once
    | NoPaydaySet                                       // no next payday: nothing is written
    | Completed(history: PaydayHistory, nextPayday: string)

  /** The history entry of one due bill: the whole amount due is allocated. */
  function AllocationEntries(due: seq<Bill>): (r: seq<AllocatedBill>)
    ensures |r| == |due|
    ensures forall i :: 0 <= i < |due| ==>
              && r[i].billName == due[i].name && r[i].dueDate == due[i].dueDate
              && r[i].amountDue == due[i].amount
              && r[i].amountAllocated == r[i].amountDue
              && r[i].wasAutopay == due[i].isAutopay
  {
    seq(|due|, i requires 0 <= i < |due| =>
      AllocatedBill(due[i].name, due[i].amount, due[i].amount, due[i].dueDate, due[i].isAutopay))
  }

  /** `(x || 0) + amount`, which is NaN (stored as no number) when the bill has no amount. */
  function AddAllocation(current: Option<real>, amount: Option<real>): Option<real> {
    if amount.Some? then Some(Or0(current) + amount.value) else None
  }

  /** The update one due bill receives. */
  function Allocated(bill: Bill, stamp: string): (r: Bill)
    ensures r.allocatedAmount == AddAllocation(bill.allocatedAmount, bill.amount)
    ensures r.lastAllocatedDate == stamp
    ensures r.(allocatedAmount := bill.allocatedAmount, lastAllocatedDate := bill.lastAllocatedDate) == bill
  {
    bill.(allocatedAmount := AddAllocation(bill.allocatedAmount, bill.amount), lastAllocatedDate := stamp)
  }

  /** One bill after completion. */
  function Settled(bill: Bill, today: int, paydayEnd: Option<int>, stamp: string): Bill {
    if DueNow(bill, today, paydayEnd) then Allocated(bill, stamp) else bill
  }

  /** The bill list after completion: each due bill updated, every other bill as it was. */
  function AllocateDue(bills: seq<Bill>, today: int, paydayEnd: Option<int>, stamp: string): (r: seq<Bill>)
    ensures |r| == |bills|
    ensures forall i :: 0 <= i < |bills| ==>
              r[i] == if DueNow(bills[i], today, paydayEnd) then Allocated(bills[i], stamp) else bills[i]
  {
    if bills == [] then []
    else
      [if DueNow(bills[0], today, paydayEnd) then Allocated(bills[0], stamp) else bills[0]]
        + AllocateDue(bills[1..], today, paydayEnd, stamp)
  }

  /** Completing the payday lowers the unallocated total by exactly the
      amounts of the due bills (when each due bill has an amount). */
  lemma {:induction false} CompletionLowersUnallocated(bills: seq<Bill>, today: int, paydayEnd: Option<int>, stamp: string)
    requires forall b :: b in bills && DueNow(b, today, paydayEnd) ==> b.amount.Some?
    ensures TotalUnallocated(AllocateDue(bills, today, paydayEnd, stamp))
         == TotalUnallocated(bills) - TotalAmount(BillsDueNow(bills, today, paydayEnd))
  {
    if bills != [] {
      var r := AllocateDue(bills, today, paydayEnd, stamp);
      assert r[1..] == AllocateDue(bills[1..], today, paydayEnd, stamp);
      CompletionLowersUnallocated(bills[1..], today, paydayEnd, stamp);
      if DueNow(bills[0], today, paydayEnd) {
        assert [bills[0]] + BillsDueNow(bills[1..], today, paydayEnd) == BillsDueNow(bills, today, paydayEnd);
        assert ([bills[0]] + BillsDueNow(bills[1..], today, paydayEnd))[1..] == BillsDueNow(bills[1..], today, paydayEnd);
      }
    }
  }

  /** The next payday: `setDate(getDate() + 7/14/15)` for weekly, biweekly
      and semimonthly pay, `setMonth(getMonth() + 1)` for monthly pay, and
      no change for any other frequency. */
  function AdvancePayday(payday: int, frequency: string): (r: int)
    ensures frequency == "weekly" ==> r == payday + 7
    ensures frequency == "biweekly" ==> r == payday + 14
    ensures frequency == "semimonthly" ==> r == payday + 15
    ensures frequency == "monthly" ==>
              CivilFromDays(r) == RollOver(NextMonth(CivilFromDays(payday)), GetDate(payday))
    ensures frequency !in {"weekly", "biweekly", "semimonthly", "monthly"} ==> r == payday
  {
    if frequency == "weekly" then
      SetDateShifts(payday, 7);
      SetDate(payday, GetDate(payday) + 7)
    else if frequency == "biweekly" then
      SetDateShifts(payday, 14);
      SetDate(payday, GetDate(payday) + 14)
    else if frequency == "semimonthly" then
      SetDateShifts(payday, 15);
      SetDate(payday, GetDate(payday) + 15)
    else if frequency == "monthly" then
      MonthlyRollsOver(payday);
      SetMonth(payday, GetMonth(payday) + 1)
    else
      payday
  }

  lemma MonthlyRollsOver(payday: int)
    ensures CivilFromDays(SetMonth(payday, GetMonth(payday) + 1))
         == RollOver(NextMonth(CivilFromDays(payday)), GetDate(payday))
  {
    var c := CivilFromDays(payday);
    assert CarriedMonth(c.year, c.month) == NextMonth(c);
    MakeDayRollsOver(c.year, c.month, c.day);
  }

  /** Monthly pay on January 31 moves to March 3, or to March 2 in a leap
      year: the missing days of February roll over instead of being clamped. */
  lemma MonthlyFromJanuary31(y: int)
    ensures CivilFromDays(AdvancePayday(DayNumber(Date(y, 1, 31)), "monthly"))
         == Date(y, 3, if IsLeapYear(y) then 2 else 3)
  {
    MonthlyFrom(Date(y, 1, 31));
    FebruaryRollOver(y);
  }

  /** Day 31 of February is day 3 of March, or day 2 in a leap year. */
  lemma FebruaryRollOver(y: int)
    ensures NextMonth(Date(y, 1, 31)) == Date(y, 2, 1)
    ensures RollOver(Date(y, 2, 1), 31) == Date(y, 3, if IsLeapYear(y) then 2 else 3)
  {
  }

  /** Monthly pay from a calendar day: that day of the next month, rolled over. */
  lemma MonthlyFrom(d: Date)
    requires Valid(d)
    ensures CivilFromDays(AdvancePayday(DayNumber(d), "monthly")) == RollOver(NextMonth(d), d.day)
  {
    CivilRoundTrip(d);
  }

  /** What completing the payday writes, from the page's state before it. */
  function CompletionOf(incomes: seq<Income>, budget: Option<Budget>, bills: seq<Bill>, today: int): Completion {
    var primary := PrimaryIncome(incomes);
    if primary.None? then NoPrimaryIncome
    else if primary.value.nextPayday == "" then NoPaydaySet
    else
      var payday := ParseDay(primary.value.nextPayday);
      var end := PaydayEnd(primary.value.nextPayday, today);
      var paycheck := PaycheckAmount(primary);
      var history := PaydayHistory(FormatDay(payday), paycheck, BucketAmounts(paycheck, budget),
                                   AllocationEntries(BillsDueNow(bills, today, end)));
      var next := if payday.Some? then Some(AdvancePayday(payday.value, primary.value.payFrequency)) else None;
      Completed(history, FormatDay(next))
  }

  /** The dates written on completion read back as the days they stand
      for: the history's payday date as the payday, and the income's new
      next payday as the advanced payday (for years from 100 on). */
  lemma CompletionDatesReadBack(incomes: seq<Income>, budget: Option<Budget>, bills: seq<Bill>, today: int, payday: int)
    requires PrimaryIncome(incomes).Some? && PrimaryIncome(incomes).value.nextPayday != ""
    requires ParseDay(PrimaryIncome(incomes).value.nextPayday) == Some(payday)
    requires GetFullYear(payday) >= 100
    requires GetFullYear(AdvancePayday(payday, PrimaryIncome(incomes).value.payFrequency)) >= 100
    ensures var outcome := CompletionOf(incomes, budget, bills, today);
            && outcome.Completed?
            && ParseDay(outcome.history.paydayDate) == Some(payday)
            && ParseDay(outcome.nextPayday) == Some(AdvancePayday(payday, PrimaryIncome(incomes).value.payFrequency))
  {
    ParseFormatRoundTrip(payday);
    ParseFormatRoundTrip(AdvancePayday(payday, PrimaryIncome(incomes).value.payFrequency));
  }

  /** `handleMarkComplete` on a store whose bills are the array `bills`: the
      outcome is `CompletionOf`, the due bills are updated one after the
      other, and nothing changes unless the payday completes. */
  method MarkComplete(incomes: seq<Income>, budget: Option<Budget>, bills: array<Bill>, today: int)
    returns (outcome: Completion)
    modifies bills
    ensures outcome == CompletionOf(incomes, budget, old(bills[..]), today)
    ensures outcome.Completed? ==>
              bills[..] == AllocateDue(old(bills[..]), today,
                                       PaydayEnd(PrimaryIncome(incomes).value.nextPayday, today),
                                       outcome.history.paydayDate)
    ensures !outcome.Completed? ==> bills[..] == old(bills[..])
  {
    outcome := CompletionOf(incomes, budget, bills[..], today);
    if !outcome.Completed? {
      return;
    }
    var end := PaydayEnd(PrimaryIncome(incomes).value.nextPayday, today);
    var stamp := outcome.history.paydayDate;
    ghost var before := bills[..];
    var i := 0;
    while i < bills.Length
      invariant 0 <= i <= bills.Length
      invariant forall k :: 0 <= k < i ==> bills[k] == Settled(before[k], today, end, stamp)
      invariant forall k :: i <= k < bills.Length ==> bills[k] == before[k]
    {
      if DueNow(bills[i], today, end) {
        bills[i] := Allocated(bills[i], stamp);
      }
      i := i + 1;
    }
    assert bills[..] == AllocateDue(before, today, end, stamp);
  }
}
