/** The debt form: the record it submits, and the payment bills it creates,
    updates or deletes alongside the debt. */
module DebtForm {
  import opened Common
  import opened Civil
  import opened Records

  // ---- the form and the record it submits ---------------------------------------

  /** A numeric input of the form: left empty (`''`, which is falsy), or
      holding something whose `parseFloat`/`parseInt` is `parsed` (`None`
      for NaN). A filled-in input is truthy even when it reads 0. */
  datatype Field<T> = Blank | Entered(parsed: Option<T>)

  datatype Form = Form(
    name: string,
    balance: Field<real>,
    originalBalance: Field<real>,
    minimumPayment: Field<real>,
    apr: Field<real>,
    dueDay: Field<int>,
    statementDay: Field<int>,
    kind: string,
    linkedAssetId: string)

  /** `parseFloat` or `parseInt` of an input, and also `field ? parse(field) :
      undefined`: an empty input gives NaN in the one and `undefined` in the
      other, which the model does not tell apart. */
  function Parse<T>(f: Field<T>): Option<T> {
    if f.Entered? then f.parsed else None
  }

  /** `dataToSubmit`, stored under `id`: the original balance falls back to
      the balance when left empty, and an empty minimum payment, statement
      day or linked asset is left undefined. */
  function Submitted(id: nat, f: Form): (d: Debt)
    ensures d.id == id && d.name == f.name && d.kind == f.kind
    ensures d.balance == Parse(f.balance)
    ensures f.originalBalance.Blank? ==> d.originalBalance == d.balance
    ensures f.originalBalance.Entered? ==> d.originalBalance == f.originalBalance.parsed
    ensures f.minimumPayment.Blank? ==> d.minimumPayment.None?
    ensures f.statementDay.Blank? ==> d.statementDay.None?
    ensures d.linkedAssetId.None? <==> f.linkedAssetId == ""
  {
    Debt(id, f.name, Parse(f.balance),
         if f.originalBalance.Entered? then f.originalBalance.parsed else Parse(f.balance),
         Parse(f.minimumPayment), Parse(f.apr), Parse(f.dueDay),
         Parse(f.statementDay), f.kind,
         if f.linkedAssetId != "" then Some(f.linkedAssetId) else None)
  }

  function NumberInput(x: Option<real>): Field<real> {
    if Truthy(x) then Entered(x) else Blank
  }

  function DayInput(x: Option<int>): Field<int> {
    if x.Some? && x.value != 0 then Entered(x) else Blank
  }

  /** The form's initial state: each field of the debt being edited, or
      empty when it is falsy; the original balance falls back to the balance
      and the type to `'credit_card'`. */
  function InitialForm(debt: Option<Debt>): Form {
    match debt
    case None => Form("", Blank, Blank, Blank, Blank, Blank, Blank, "credit_card", "")
    case Some(d) =>
      Form(d.name, NumberInput(d.balance),
           if Truthy(d.originalBalance) then Entered(d.originalBalance) else NumberInput(d.balance),
           NumberInput(d.minimumPayment), NumberInput(d.apr), DayInput(d.dueDay),
           DayInput(d.statementDay), if d.kind != "" then d.kind else "credit_card",
           if d.linkedAssetId.Some? then d.linkedAssetId.value else "")
  }

  /** All fields of a debt set to values JavaScript finds truthy. */
  predicate FullySet(d: Debt) {
    && Truthy(d.balance) && Truthy(d.originalBalance) && Truthy(d.minimumPayment) && Truthy(d.apr)
    && d.dueDay.Some? && d.dueDay.value != 0 && d.statementDay.Some? && d.statementDay.value != 0
    && d.kind != "" && d.linkedAssetId.Some? && d.linkedAssetId.value != ""
  }

  /** Saving the edit form of a fully set debt without touching it stores the
      same debt again. */
  lemma ResaveKeepsDebt(d: Debt)
    requires FullySet(d)
    ensures Submitted(d.id, InitialForm(Some(d))) == d
  {
  }

  /** Saving the edit form of a debt whose original balance is 0 or missing
      stores its balance as the original balance. */
  lemma ResaveFillsOriginalBalance(d: Debt)
    requires !Truthy(d.originalBalance) && Truthy(d.balance)
    ensures Submitted(d.id, InitialForm(Some(d))).originalBalance == d.balance
  {
  }

  /** `if (dataToSubmit.minimum_payment)`: payment bills are only touched for
      a minimum payment that is a number other than 0. */
  predicate SyncsBills(d: Debt) {
    Truthy(d.minimumPayment)
  }

  lemma SyncsBillsIff(f: Form)
    ensures SyncsBills(Submitted(0, f)) <==> f.minimumPayment.Entered? && Truthy(f.minimumPayment.parsed)
  {
  }

  // ---- the first due date ------------------------------------------------------------

  /** `new Date(today.getFullYear(), today.getMonth(), dueDay)`, moved one
      month on with `setMonth` when its midnight is before the instant
      `nowMs`; `None` for an Invalid Date (a due day that is NaN). */
  function FirstDueDate(nowMs: int, dueDay: Option<int>): Option<int> {
    match dueDay
    case None => None
    case Some(dd) =>
      var today := nowMs / MsPerDay;
      var first := NewDate(GetFullYear(today), GetMonth(today), dd);
      Some(if first * MsPerDay < nowMs then SetMonth(first, GetMonth(first) + 1) else first)
  }

  /** Day `dd` of this month, rolled over when this month is shorter. */
  function ThisMonthDue(today: int, dd: int): Date
    requires 1 <= dd <= 31
  {
    var c := CivilFromDays(today);
    RollOver(Date(c.year, c.month, 1), dd)
  }

  /** The first due date is day `dueDay` of this month when its midnight has
      not passed yet, and otherwise day `dueDay` of the next month, rolled
      over in both cases; either way it is never before the current instant. */
  lemma FirstDueDateRule(nowMs: int, dd: int)
    requires 1 <= dd <= 31
    requires GetFullYear(nowMs / MsPerDay) >= 100
    ensures var today := nowMs / MsPerDay;
            var here := ThisMonthDue(today, dd);
            var r := FirstDueDate(nowMs, Some(dd)).value;
            && r * MsPerDay >= nowMs
            && (DayNumber(here) * MsPerDay >= nowMs ==> CivilFromDays(r) == here)
            && (DayNumber(here) * MsPerDay < nowMs ==> CivilFromDays(r) == RollOver(NextMonth(CivilFromDays(today)), dd))
  {
    var today := nowMs / MsPerDay;
    var first := NewDate(GetFullYear(today), GetMonth(today), dd);
    var moved := SetMonth(first, GetMonth(first) + 1);
    ThisMonthFirst(today, dd);
    MovedToNextMonth(nowMs, dd);
    FirstDueDateIs(nowMs, dd, today, first, moved);
  }

  lemma FirstDueDateIs(nowMs: int, dd: int, today: int, first: int, moved: int)
    requires today == nowMs / MsPerDay && first == NewDate(GetFullYear(today), GetMonth(today), dd)
    requires moved == SetMonth(first, GetMonth(first) + 1)
    ensures FirstDueDate(nowMs, Some(dd)) == Some(if first * MsPerDay < nowMs then moved else first)
  {
  }

  /** When this month's due date has passed, `setMonth` moves it to day
      `dd` of the next month, rolled over, which is after today. */
  lemma MovedToNextMonth(nowMs: int, dd: int)
    requires 1 <= dd <= 31
    requires GetFullYear(nowMs / MsPerDay) >= 100
    ensures var today := nowMs / MsPerDay;
            var first := NewDate(GetFullYear(today), GetMonth(today), dd);
            var r := SetMonth(first, GetMonth(first) + 1);
            first * MsPerDay < nowMs ==>
              r * MsPerDay >= nowMs && CivilFromDays(r) == RollOver(NextMonth(CivilFromDays(today)), dd)
  {
    var today := nowMs / MsPerDay;
    var first := NewDate(GetFullYear(today), GetMonth(today), dd);
    if first * MsPerDay < nowMs {
      ThisMonthFirst(today, dd);
      PassedDueDay(today, dd, nowMs);
      var r := SetMonth(first, GetMonth(first) + 1);
      NextMonthDue(today, dd, first, r);
      LaterMidnight(r, today + 1);
    }
  }

  /** Moving a passed due date of this month on by a month gives day `dd`
      of the next month, rolled over, which is after today. */
  lemma NextMonthDue(today: int, dd: int, first: int, r: int)
    requires var c := CivilFromDays(today);
             1 <= dd <= DaysInMonth(c.year, c.month) && CivilFromDays(first) == Date(c.year, c.month, dd)
    requires r == SetMonth(first, GetMonth(first) + 1)
    ensures CivilFromDays(r) == RollOver(NextMonth(CivilFromDays(today)), dd)
    ensures r > today
  {
    var c := CivilFromDays(today);
    SetMonthOnward(first, c.year, c.month, dd, r);
    CarriedIsNext(c);
    DayOfMakeDay(c.year, c.month, dd, r);
    AfterThisMonth(c, today, dd, r);
  }

  /** `setMonth(getMonth() + 1)` on day `dd` of month `m` is MakeDay of month index `m`. */
  lemma SetMonthOnward(first: int, y: int, m: int, dd: int, r: int)
    requires 1 <= m <= 12 && CivilFromDays(first) == Date(y, m, dd)
    requires r == SetMonth(first, GetMonth(first) + 1)
    ensures r == MakeDay(y, m, dd)
  {
  }

  /** Month index `m` (counting from 0) is the month after month `m` (counting from 1). */
  lemma CarriedIsNext(c: Date)
    requires 1 <= c.month <= 12
    ensures CarriedMonth(c.year, c.month) == NextMonth(c)
  {
  }

  /** MakeDay in the next month lies after every day of this month. */
  lemma AfterThisMonth(c: Date, today: int, dd: int, r: int)
    requires Valid(c) && today == DayNumber(c) && 1 <= dd
    requires r == MakeDay(c.year, c.month, dd)
    requires CarriedMonth(c.year, c.month) == NextMonth(c)
    ensures r > today
  {
    NextMonthStart(c);
    assert r == DayNumber(NextMonth(c)) + dd - 1;
  }


  /** This month's due date, computed as `new Date(...)` does. */
  lemma ThisMonthFirst(today: int, dd: int)
    requires 1 <= dd <= 31
    requires GetFullYear(today) >= 100
    ensures var first := NewDate(GetFullYear(today), GetMonth(today), dd);
            first == DayNumber(ThisMonthDue(today, dd)) && CivilFromDays(first) == ThisMonthDue(today, dd)
  {
    var c := CivilFromDays(today);
    var first := NewDate(GetFullYear(today), GetMonth(today), dd);
    assert first == MakeDay(c.year, c.month - 1, dd);
    MonthIndexInYear(c.month - 1);
    var t := CarriedMonth(c.year, c.month - 1);
    assert t == Date(c.year, c.month, 1);
    MakeDayRollsOver(c.year, c.month - 1, dd);
    assert CivilFromDays(first) == RollOver(t, dd);
    RollOverSameDay(t, dd);
    assert DayNumber(RollOver(t, dd)) == first;
  }

  /** A due date of this month whose midnight has passed is not rolled over,
      and falls on or before today. */
  lemma PassedDueDay(today: int, dd: int, nowMs: int)
    requires 1 <= dd <= 31
    requires today == nowMs / MsPerDay
    requires DayNumber(ThisMonthDue(today, dd)) * MsPerDay < nowMs
    ensures var c := CivilFromDays(today);
            dd <= DaysInMonth(c.year, c.month) && ThisMonthDue(today, dd) == Date(c.year, c.month, dd)
  {
    var c := CivilFromDays(today);
    var here := ThisMonthDue(today, dd);
    RollOverSameDay(Date(c.year, c.month, 1), dd);
    EarlierMidnight(DayNumber(here), today + 1);
    NextMonthStart(c);
  }


  /** A debt due on today's day of the month, saved at any moment after
      midnight, gets its first payment in the next month. */
  lemma DueTodayMovesToNextMonth(nowMs: int)
    requires GetFullYear(nowMs / MsPerDay) >= 100
    requires nowMs % MsPerDay != 0
    ensures var today := nowMs / MsPerDay;
            var c := CivilFromDays(today);
            CivilFromDays(FirstDueDate(nowMs, Some(c.day)).value) == RollOver(NextMonth(c), c.day)
  {
    var today := nowMs / MsPerDay;
    var c := CivilFromDays(today);
    FirstDueDateRule(nowMs, c.day);
    RollOverSameDay(Date(c.year, c.month, 1), c.day);
    assert DayNumber(ThisMonthDue(today, c.day)) == today;
  }

  // ---- the payment schedule --------------------------------------------------------

  /** `new Date(dueDate.getFullYear(), dueDate.getMonth() + i, dueDay)`. */
  function ScheduleDate(first: Option<int>, dueDay: Option<int>, i: int): Option<int> {
    if first.Some? && dueDay.Some? then
      Some(NewDate(GetFullYear(first.value), GetMonth(first.value) + i, dueDay.value))
    else None
  }

  /** One generated payment bill. The source sets no `is_autopay` on these
      bills, so the field is undefined there; it is written `false` here,
      which is falsy just the same wherever it is read. */
  function PaymentBill(name: string, amount: Option<real>, due: Option<int>): Bill {
    Bill(name + " Payment", amount, FormatDay(due), "debt_payments", "monthly",
         "Auto-generated from debt: " + name, false, None, "")
  }

  /** The bills a new debt creates: one per month offset 0 to 6 from the
      first due date, all with the same name, amount, category, frequency
      and notes. */
  function Schedule(name: string, amount: Option<real>, first: Option<int>, dueDay: Option<int>): (r: seq<Bill>)
    ensures |r| == 7
    ensures forall i :: 0 <= i < 7 ==>
              && r[i].name == name + " Payment" && r[i].amount == amount
              && r[i].category == "debt_payments" && r[i].frequency == "monthly"
              && r[i].notes == "Auto-generated from debt: " + name
              && r[i].dueDate == FormatDay(ScheduleDate(first, dueDay, i))
  {
    seq(7, i => PaymentBill(name, amount, ScheduleDate(first, dueDay, i)))
  }

  /** The `for` loop that pushes the seven bills of a new debt. */
  method BuildPaymentSchedule(name: string, amount: Option<real>, first: Option<int>, dueDay: Option<int>)
    returns (billsToCreate: seq<Bill>)
    ensures billsToCreate == Schedule(name, amount, first, dueDay)
  {
    ghost var all := Schedule(name, amount, first, dueDay);
    billsToCreate := [];
    for i := 0 to 7
      invariant billsToCreate == all[..i]
    {
      var target := ScheduleDate(first, dueDay, i);
      ScheduleStep(name, amount, first, dueDay, all, i);
      billsToCreate := billsToCreate + [PaymentBill(name, amount, target)];
    }
    assert all[..7] == all;
  }

  lemma ScheduleStep(name: string, amount: Option<real>, first: Option<int>, dueDay: Option<int>, all: seq<Bill>, i: int)
    requires all == Schedule(name, amount, first, dueDay) && 0 <= i < 7
    ensures all[..i + 1] == all[..i] + [PaymentBill(name, amount, ScheduleDate(first, dueDay, i))]
  {
    var b := PaymentBill(name, amount, ScheduleDate(first, dueDay, i));
    ScheduleAt(name, amount, first, dueDay, i, b);
    SliceStep(all, i, b);
  }

  lemma ScheduleAt(name: string, amount: Option<real>, first: Option<int>, dueDay: Option<int>, i: int, b: Bill)
    requires 0 <= i < 7 && b == PaymentBill(name, amount, ScheduleDate(first, dueDay, i))
    ensures Schedule(name, amount, first, dueDay)[i] == b
  {
  }

  lemma SliceStep<T>(s: seq<T>, i: int, x: T)
    requires 0 <= i < |s| && s[i] == x
    ensures s[..i + 1] == s[..i] + [x]
  {
  }

  /** Payment `i` falls on day `dueDay` of the `i`-th month after the first
      due date's month, rolled over when that month is shorter. */
  lemma ScheduleMonths(first: int, dd: int, i: int)
    requires 1 <= dd <= 31 && 0 <= i < 7
    requires GetFullYear(first) >= 100
    ensures var c := CivilFromDays(first);
            CivilFromDays(ScheduleDate(Some(first), Some(dd), i).value)
            == RollOver(CarriedMonth(c.year, c.month - 1 + i), dd)
  {
    var c := CivilFromDays(first);
    var mi := c.month - 1 + i;
    var due := ScheduleDate(Some(first), Some(dd), i).value;
    ScheduleDateIs(first, dd, i, c.year, mi, due);
    DayOfMakeDay(c.year, mi, dd, due);
  }

  lemma ScheduleDateIs(first: int, dd: int, i: int, y: int, mi: int, due: int)
    requires y == GetFullYear(first) >= 100 && mi == GetMonth(first) + i
    requires due == ScheduleDate(Some(first), Some(dd), i).value
    ensures due == MakeDay(y, mi, dd)
  {
  }

  /** The date text of each payment reads back as its day. */
  lemma ScheduleReadsBack(first: int, dd: int, i: int)
    requires 1 <= dd <= 31 && 0 <= i < 7
    requires GetFullYear(first) >= 100
    ensures var due := ScheduleDate(Some(first), Some(dd), i);
            ParseDay(FormatDay(due)) == due
  {
    var c := CivilFromDays(first);
    var due := ScheduleDate(Some(first), Some(dd), i).value;
    var t := CarriedMonth(c.year, c.month - 1 + i);
    ScheduleMonths(first, dd, i);
    RollOverYear(t, dd);
    assert GetFullYear(due) >= 100;
    ParseFormatRoundTrip(due);
  }

  /** Rolling over never goes back a year. */
  lemma RollOverYear(t: Date, dd: int)
    requires 1 <= t.month <= 12
    ensures RollOver(t, dd).year >= t.year
  {
  }

  /** Each payment falls one whole month (28 to 31 days) after the one before. */
  lemma ScheduleIncreasing(first: int, dd: int, i: int)
    requires 0 <= i < 6
    ensures var a := ScheduleDate(Some(first), Some(dd), i).value;
            var b := ScheduleDate(Some(first), Some(dd), i + 1).value;
            a + 28 <= b <= a + 31
  {
    var y := ConstructorYear(GetFullYear(first));
    var mi := GetMonth(first) + i;
    assert ScheduleDate(Some(first), Some(dd), i).value == MakeDay(y, mi, dd);
    assert ScheduleDate(Some(first), Some(dd), i + 1).value == MakeDay(y, mi + 1, dd);
    MakeDayNextMonth(y, mi, dd);
  }

  // ---- saving and deleting a debt -------------------------------------------------------

  /** The store the form reads and writes: the debts and the bills. */
  datatype Store = Store(debts: seq<Debt>, bills: seq<Bill>)

  /** `Debt.update(id, data)`: the debt with that id takes the new data. */
  function ReplaceDebt(debts: seq<Debt>, d: Debt): (r: seq<Debt>)
    ensures |r| == |debts|
    ensures forall i :: 0 <= i < |debts| ==> r[i] == if debts[i].id == d.id then d else debts[i]
  {
    seq(|debts|, i requires 0 <= i < |debts| => if debts[i].id == d.id then d else debts[i])
  }

  /** The update applied to each bill named `"<name> Payment"` when an
      existing debt is saved; every other bill is left as it was. */
  function UpdateRelatedBills(bills: seq<Bill>, name: string, amount: Option<real>): (r: seq<Bill>)
    ensures |r| == |bills|
    ensures forall i :: 0 <= i < |bills| ==>
              r[i] == if bills[i].name == name + " Payment"
                      then bills[i].(amount := amount, category := "debt_payments", frequency := "monthly",
                                     notes := "Auto-generated from debt: " + name)
                      else bills[i]
  {
    seq(|bills|, i requires 0 <= i < |bills| =>
      if bills[i].name == name + " Payment"
      then bills[i].(amount := amount, category := "debt_payments", frequency := "monthly",
                     notes := "Auto-generated from debt: " + name)
      else bills[i])
  }

  /** `handleSubmit`: the debt is updated (when editing) or appended under
      the store's new id; its payment bills are updated (when editing) or
      seven are created, and only when the minimum payment is truthy. */
  function SaveDebt(editing: Option<Debt>, f: Form, newId: nat, store: Store, nowMs: int): Store {
    var id := if editing.Some? then editing.value.id else newId;
    var d := Submitted(id, f);
    var debts := if editing.Some? then ReplaceDebt(store.debts, d) else store.debts + [d];
    var bills :=
      if !SyncsBills(d) then store.bills
      else if editing.Some? then UpdateRelatedBills(store.bills, f.name, d.minimumPayment)
      else store.bills + Schedule(f.name, d.minimumPayment, FirstDueDate(nowMs, d.dueDay), d.dueDay);
    Store(debts, bills)
  }

  /** Editing a debt creates no bill and only rewrites the amount, category,
      frequency and notes of bills named after the form's name; a new debt
      with a minimum payment adds exactly seven bills after the existing
      ones; with no minimum payment the bills are not touched. */
  lemma SaveDebtBills(editing: Option<Debt>, f: Form, newId: nat, store: Store, nowMs: int)
    ensures var r := SaveDebt(editing, f, newId, store, nowMs);
            && (!SyncsBills(Submitted(0, f)) ==> r.bills == store.bills)
            && (editing.Some? ==> |r.bills| == |store.bills|)
            && (editing.Some? ==> forall i :: 0 <= i < |store.bills| ==>
                  r.bills[i].(amount := store.bills[i].amount, category := store.bills[i].category,
                              frequency := store.bills[i].frequency, notes := store.bills[i].notes)
                  == store.bills[i])
            && (editing.Some? ==> forall i :: 0 <= i < |store.bills| && store.bills[i].name != f.name + " Payment" ==>
                  r.bills[i] == store.bills[i])
            && (editing.None? && SyncsBills(Submitted(0, f)) ==>
                  |r.bills| == |store.bills| + 7 && r.bills[..|store.bills|] == store.bills)
  {
    var r := SaveDebt(editing, f, newId, store, nowMs);
    if editing.None? && SyncsBills(Submitted(0, f)) {
      assert r.bills[..|store.bills|] == store.bills;
    }
  }

  /** Saving keeps one debt record per debt: an edit changes none of the
      other debts and a new debt is appended. */
  lemma SaveDebtRecords(editing: Option<Debt>, f: Form, newId: nat, store: Store, nowMs: int)
    ensures var r := SaveDebt(editing, f, newId, store, nowMs);
            && (editing.Some? ==> |r.debts| == |store.debts|)
            && (editing.Some? ==> forall i :: 0 <= i < |store.debts| && store.debts[i].id != editing.value.id ==>
                  r.debts[i] == store.debts[i])
            && (editing.None? ==> r.debts == store.debts + [Submitted(newId, f)])
  {
  }

  /** The bills left after removing every bill named `n`: the others, in order. */
  function RemoveBillsNamed(bills: seq<Bill>, n: string): (r: seq<Bill>)
    ensures forall b :: b in r <==> b in bills && b.name != n
  {
    if bills == [] then []
    else if bills[0].name == n then RemoveBillsNamed(bills[1..], n)
    else [bills[0]] + RemoveBillsNamed(bills[1..], n)
  }

  /** Removal keeps the other bills in their order, each as many times as before. */
  lemma {:induction false} RemoveBillsNamedKeepsOthers(bills: seq<Bill>, n: string)
    ensures Subsequence(RemoveBillsNamed(bills, n), bills)
    ensures forall b :: multiset(RemoveBillsNamed(bills, n))[b] == if b.name == n then 0 else multiset(bills)[b]
  {
    if bills != [] {
      var r := RemoveBillsNamed(bills, n);
      var rest := RemoveBillsNamed(bills[1..], n);
      RemoveBillsNamedKeepsOthers(bills[1..], n);
      assert bills == [bills[0]] + bills[1..];
      if bills[0].name != n {
        assert r[1..] == rest;
      } else {
        SubsequenceOfTail(rest, bills);
      }
    }
  }

  function RemoveDebt(debts: seq<Debt>, id: nat): (r: seq<Debt>)
    ensures forall d :: d in r <==> d in debts && d.id != id
  {
    if debts == [] then []
    else if debts[0].id == id then RemoveDebt(debts[1..], id)
    else [debts[0]] + RemoveDebt(debts[1..], id)
  }

  /** `handleDelete`: nothing without a debt; otherwise every bill named
      `"<debt name> Payment"` is removed, then the debt itself. */
  function DeleteDebt(debt: Option<Debt>, store: Store): (r: Store)
    ensures debt.None? ==> r == store
    ensures debt.Some? ==> forall b :: b in r.bills <==> b in store.bills && b.name != debt.value.name + " Payment"
    ensures debt.Some? ==> forall d :: d in r.debts <==> d in store.debts && d.id != debt.value.id
  {
    match debt
    case None => store
    case Some(d) => Store(RemoveDebt(store.debts, d.id), RemoveBillsNamed(store.bills, d.name + " Payment"))
  }
}
