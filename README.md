# Paycheck Pathfinder: a verified model of its budget and calendar rules

Paycheck Pathfinder is a personal-budget web app. Each paycheck is split into
three buckets: bills, spending and savings. The app tracks bills, debts,
savings goals and spending. This project models in Dafny the deterministic
rules behind its pages and proves properties of them:

- **Payday planner** (`payday.dfy`):
  - choosing the primary income;
  - the three bucket amounts;
  - the bills due between today and the next payday;
  - the unallocated total;
  - "mark payday complete", which writes the history entry, raises each due
    bill's allocated amount and moves the next payday on by the pay frequency.
- **Debt form** (`debt_form.dfy`):
  - the record it submits;
  - the first due date of a new debt;
  - the loop that creates seven monthly payment bills;
  - the update of related bills on edit and their removal on delete.
- **Settings** (`settings.dfy`): the loop that converts every income to a
  monthly amount, the percentage defaults, the "should equal 100%" warning,
  and what saving writes.
- **Bills page** (`bills_page.dfy`): the bills allocation, the displayed
  percentage, and the search and category filter.
- **Home dashboard** (`home.dfy`): the totals, the savings and debt-payoff
  percentages with their zero guards, the expected paycheck, and the choice
  between loading, onboarding and dashboard.
- **Spending page** (`spending.dfy`): the spending allocation and this
  month's expense total.
- **Bill card** (`bill_card.dfy`): the days left until a bill is due, and its
  Overdue / Due Soon / "N days" label.

Two foundation modules support these:

- `common.dfy`: JavaScript value conventions.
  - A missing field or NaN is `None`.
  - `x || 0` is `Or0`, and the falsy test on numbers is `Truthy`.
  - `Math.round` is `Round`.
  - It also holds ASCII lower-casing, `includes`, decimal digits and sums.
- `civil.dfy`: a calendar.
  - Days-from-civil and civil-from-days are proved inverse.
  - The `Date` operations the app uses are defined on it: `new Date(y, m, d)`
    (ECMAScript MakeDay, with month carry and day overflow), `setDate`,
    `setMonth` and the getters.
  - Also: `s.split('-').map(Number)`, the `YYYY-MM-DD` template, and
    `new Date("YYYY-MM-DD")`.
  - A calendar day is an integer: days since 1970-01-01. An instant is an
    integer count of milliseconds.

The payday allocation follows the code. The code has no greedy or
priority-ordered bill selection. It has no late-by grace date and no
carried-forward bills balance, so the buckets are plain percentages of the
paycheck. Its monthly advance uses `setMonth(getMonth() + 1)`. That rolls an
overflowing day into the following month instead of clamping it to the
month's last day: January 31 becomes March 3, or March 2 in a leap year
(`Payday.MonthlyFromJanuary31`).

Some behaviours of the code are visible in the model:
- `new Date(y, m, d)` reads years 0 to 99 as 1900 to 1999. So reading back a
  formatted date is proved only for years from 100 on.
- Editing a debt updates only bills named after the name now in the form. A
  renamed debt leaves its old payment bills as they were.
- The first seven payments of a new debt are computed from the first due
  date's month. When the first due date itself rolled over (day 31 in a
  30-day month), payment 0 lies in the month after it.

## Model

| member | source | states |
|---|---|---|
| Common.Or0 | src/pages/Payday.jsx:69 | `x \|\| 0` is the number when it is truthy and 0 otherwise |
| Common.Round | src/pages/Home.jsx:77 | `Math.round` gives the integer within one half below or above |
| Common.ToLower | src/pages/Bills.jsx:46 | lower-casing keeps the length and lower-cases each ASCII letter in place |
| Common.ContainsIffOccurs | src/pages/Bills.jsx:46 | `includes` holds exactly when the text occurs at some position |
| Common.ValueOfDigits | src/pages/Payday.jsx:120 | the decimal text of a number reads back as the number |
| Common.DigitsValueOf | src/pages/Payday.jsx:82 | a digit string without leading zero is the decimal text of its value |
| Common.SumOfMonotone | src/pages/Home.jsx:73-76 | a sum of smaller terms is smaller |
| Records.FirstPrimary | src/pages/Payday.jsx:67 | the index found is a primary income with no primary income before it; none means no primary income at all |
| Records.PrimaryIncome | src/pages/Payday.jsx:67 | none exactly when there are no incomes; the first primary income; the first income when none is primary |
| Records.PercentOf | src/pages/Payday.jsx:73-75 | NaN exactly when an operand is; otherwise 100 times the result is amount times percentage |
| Records.TotalAmountAppend | src/pages/Payday.jsx:96 | the total of two lists of bills is the sum of their totals |
| Records.TotalAmountBounds | src/pages/Bills.jsx:42 | with no negative amounts the total is at least 0 and at least every single amount |
| Civil.CivilFromDays | src/pages/Payday.jsx:159-161 | every day number has a valid calendar date whose day number it is |
| Civil.CivilRoundTrip | src/pages/Payday.jsx:118-120 | days-from-civil then civil-from-days gives back every valid date |
| Civil.DayNumberInjective | src/pages/Payday.jsx:91-92 | two valid dates with the same day number are the same date |
| Civil.SetDateShifts | src/pages/Payday.jsx:149-153 | `setDate(getDate() + k)` moves a date by exactly k days across month and year ends |
| Civil.MakeDayRollsOver | src/pages/Payday.jsx:155 | `new Date(y, m, day)` and `setMonth` keep the day when the month is long enough and roll the excess into the next month otherwise |
| Civil.MakeDayNextMonth | src/components/forms/DebtForm.jsx:94 | one more month index moves the date on by the length of the month |
| Civil.Split | src/pages/Payday.jsx:82 | `split('-')` always gives at least one field |
| Civil.ParseFormatRoundTrip | src/pages/Payday.jsx:118-120 | formatting a day as `YYYY-MM-DD` and parsing it back gives the same day (years from 100 on) |
| Civil.FormatParseRoundTrip | src/pages/Payday.jsx:118-120 | a valid zero-padded `YYYY-MM-DD` string parses as ISO and as split fields to the same day and formats back to itself |
| Civil.FormatShape | src/pages/Payday.jsx:159-164 | for four-digit years the formatted text is `DDDD-DD-DD` naming that very date |
| Payday.NoIncomeDefaults | src/pages/Payday.jsx:67-70 | with no incomes the paycheck is 0, the frequency shown is `'biweekly'` and no payday is set |
| Payday.BucketAmounts | src/pages/Payday.jsx:73-75 | without a budget all three buckets are 0 |
| Payday.BucketsShareThePaycheck | src/pages/Payday.jsx:73-75 | each bucket is its percentage of the paycheck and nothing more; percentages adding to 100 share out the whole paycheck; each bucket lies within the paycheck |
| Payday.MissingPercentage | src/pages/Payday.jsx:73-75 | a bucket is NaN exactly when its percentage is missing |
| Payday.DueNowIffInWindow | src/pages/Payday.jsx:78-93 | a bill is due now exactly when its due date parses to a day from today to the payday inclusive; without a payday the window is today alone |
| Payday.BillsDueNow | src/pages/Payday.jsx:88-93 | the due list holds exactly the bills due now |
| Payday.BillsDueNowKeepsOrder | src/pages/Payday.jsx:88-93 | the due list keeps the due bills in order, each as often as before, and no others |
| Payday.AllocationEntries | src/pages/Payday.jsx:110-116 | one history entry per due bill, with its name, due date and autopay flag, and amount allocated equal to amount due |
| Payday.Allocated | src/pages/Payday.jsx:137-140 | a due bill's allocated amount grows by its amount (NaN without one), its last allocated date becomes the payday text, nothing else changes |
| Payday.AllocateDue | src/pages/Payday.jsx:136-141 | completion updates exactly the due bills and leaves every other bill unchanged |
| Payday.CompletionLowersUnallocated | src/pages/Payday.jsx:96-98 | completing a payday lowers the unallocated total by exactly the due bills' total |
| Payday.AdvancePayday | src/pages/Payday.jsx:144-156 | weekly, biweekly and semimonthly pay move 7, 14 and 15 days; monthly pay moves to the same day of the next month, rolled over; any other frequency keeps the date |
| Payday.MonthlyFromJanuary31 | src/pages/Payday.jsx:154-156 | January 31 advances to March 3, or March 2 in a leap year |
| Payday.CompletionDatesReadBack | src/pages/Payday.jsx:118-164 | the payday date written to the history and the new next payday read back as the payday and the advanced payday |
| Payday.MarkComplete | src/pages/Payday.jsx:103-165 | without a primary income or payday nothing changes; otherwise exactly the due bills are updated and the history and next payday are those of `CompletionOf` |
| DebtForm.Submitted | src/components/forms/DebtForm.jsx:38-47 | the original balance falls back to the balance; an empty minimum payment, statement day or linked asset is left undefined |
| DebtForm.ResaveKeepsDebt | src/components/forms/DebtForm.jsx:11-47 | saving the untouched edit form of a fully set debt stores the same debt |
| DebtForm.ResaveFillsOriginalBalance | src/components/forms/DebtForm.jsx:14-41 | saving a debt whose original balance is 0 or missing stores its balance as original balance |
| DebtForm.SyncsBillsIff | src/components/forms/DebtForm.jsx:41-59 | payment bills are touched exactly when a minimum payment was entered and is a number other than 0 |
| DebtForm.FirstDueDateRule | src/components/forms/DebtForm.jsx:65-71 | the first due date is this month's due day if its midnight has not passed, else next month's (rolled over), and never before now |
| DebtForm.DueTodayMovesToNextMonth | src/components/forms/DebtForm.jsx:65-71 | a due day equal to today's day, saved after midnight, moves to the next month |
| DebtForm.Schedule | src/components/forms/DebtForm.jsx:92-106 | seven bills named `"<name> Payment"` with the minimum payment, category `debt_payments`, frequency `monthly`, and the i-th month's date |
| DebtForm.BuildPaymentSchedule | src/components/forms/DebtForm.jsx:92-106 | the loop pushes exactly the seven bills of `Schedule` |
| DebtForm.ScheduleMonths | src/components/forms/DebtForm.jsx:94-95 | payment i falls on the due day of the i-th month after the first due month, rolled over |
| DebtForm.ScheduleReadsBack | src/components/forms/DebtForm.jsx:94-95 | each payment's date text parses back to its day |
| DebtForm.ScheduleIncreasing | src/components/forms/DebtForm.jsx:94 | each payment falls 28 to 31 days after the one before |
| DebtForm.ReplaceDebt | src/components/forms/DebtForm.jsx:50-52 | an edit replaces the debt with that id and no other |
| DebtForm.UpdateRelatedBills | src/components/forms/DebtForm.jsx:73-89 | bills named after the form's name get the new amount, category, frequency and notes; all other bills stay as they were |
| DebtForm.SaveDebtBills | src/components/forms/DebtForm.jsx:59-108 | without a minimum payment no bill changes; an edit creates no bill and changes only four fields; a new debt adds seven bills after the existing ones |
| DebtForm.SaveDebtRecords | src/components/forms/DebtForm.jsx:49-56 | an edit changes no other debt; a new debt is appended |
| DebtForm.RemoveBillsNamed | src/components/forms/DebtForm.jsx:127-133 | the remaining bills are exactly those with another name |
| DebtForm.RemoveBillsNamedKeepsOthers | src/components/forms/DebtForm.jsx:127-133 | removal keeps the other bills in order, each as many times as before |
| DebtForm.RemoveDebt | src/components/forms/DebtForm.jsx:135 | the remaining debts are exactly those with another id |
| DebtForm.DeleteDebt | src/components/forms/DebtForm.jsx:121-136 | without a debt nothing changes; otherwise its payment bills and the debt are removed and nothing else |
| Settings.MonthlyAmount | src/pages/Settings.jsx:59-77 | a monthly amount is NaN exactly when the paycheck is |
| Settings.MonthlyAmountIsYearOverTwelve | src/pages/Settings.jsx:63-77 | twelve monthly amounts are 52 weekly, 26 biweekly, 24 semimonthly or 12 other paychecks |
| Settings.TotalMonthlyIncome | src/pages/Settings.jsx:58-80 | the loop computes the monthly income of all incomes |
| Settings.MonthlyIncomeDefined | src/pages/Settings.jsx:58-80 | the monthly income is a number exactly when every paycheck amount is |
| Settings.MonthlyIncomeAppend | src/pages/Settings.jsx:58-80 | the monthly income of two lists of incomes is the sum of theirs |
| Settings.MonthlyIncomeSingle | src/pages/Settings.jsx:58-80 | one income contributes its monthly amount |
| Settings.FormDefaultsAreTruthy | src/pages/Settings.jsx:40-50 | the form never starts at 0 or NaN, and a stored 0 is replaced |
| Settings.WarningIff | src/pages/Settings.jsx:188-190 | the warning shows exactly when the three percentages do not add up to 100 |
| Settings.DefaultsShowNoWarning | src/pages/Settings.jsx:40-50 | with every stored percentage falsy the form starts without a warning |
| Settings.Save | src/pages/Settings.jsx:53-85 | nothing is written without a budget; otherwise the form's percentages and the computed monthly income |
| Settings.SaveWithoutIncomes | src/pages/Settings.jsx:57-85 | with no incomes the stored monthly income is 0 |
| BillsPage.BillsAllocationShare | src/pages/Bills.jsx:43 | the allocation is that share of the income and lies within the income |
| BillsPage.DisplayedMatchesSettings | src/pages/Bills.jsx:86 | the percentage printed beside the allocation (the stored one when truthy, else 50) is the bills percentage the settings form opens with |
| BillsPage.FilteredBills | src/pages/Bills.jsx:45-49 | the shown bills are exactly those whose lower-cased name contains the lower-cased search and whose category passes the filter |
| BillsPage.FilteredBillsKeepsOrder | src/pages/Bills.jsx:45-49 | the filtered list keeps the matching bills in order, each as often as before, and no others |
| BillsPage.EmptySearchKeepsAll | src/pages/Bills.jsx:45-49 | an empty search with `'all'` shows every bill |
| BillsPage.MatchesIff | src/pages/Bills.jsx:46-48 | a bill matches exactly when the lower-cased search occurs in its lower-cased name and the category passes |
| Home.Percentage | src/pages/Home.jsx:77-81 | 0 for a total that is not positive, else the rounded percentage |
| Home.PercentageBounds | src/pages/Home.jsx:77-81 | a part within the whole is 0 to 100 percent, the whole exactly 100, nothing exactly 0 |
| Home.SavingsProgressBounds | src/pages/Home.jsx:75-77 | with each goal's savings within its target the progress is 0 to 100, and 0 with no target |
| Home.DebtProgressBounds | src/pages/Home.jsx:74-81 | with each balance within its original amount the payoff is 0 to 100: 0 when nothing is paid, 100 when everything is |
| Home.ExpectedAmount | src/pages/Home.jsx:84-86 | with no incomes the expected paycheck is 0 |
| Home.ExpectedFromPrimary | src/pages/Home.jsx:84-86 | the expected paycheck is that of the first primary income |
| Home.HomeView | src/pages/Home.jsx:88-102 | loading while the budget loads, onboarding without a budget, the dashboard otherwise |
| Spending.SpendingAllocationShare | src/pages/Spending.jsx:31 | with a budget the allocation is the spending share of the monthly income and lies within the income |
| Spending.ThisMonthExpenses | src/pages/Spending.jsx:35-38 | exactly the expenses dated in the current month and year |
| Spending.CountsIffSameMonth | src/pages/Spending.jsx:33-38 | for a valid `YYYY-MM-DD` date: counted exactly when it is an expense with this month's year and month |
| Spending.MonthlySpendingAppend | src/pages/Spending.jsx:35-40 | the spending of two lists is the sum of theirs |
| Spending.MonthlySpendingIgnores | src/pages/Spending.jsx:35-40 | no transactions give 0, and a transaction not counted adds nothing |
| Spending.MonthlySpendingCounts | src/pages/Spending.jsx:35-40 | a counted expense adds its amount, 0 when it has none |
| BillCard.CeilDiv | src/components/bills/BillCard.jsx:6 | `Math.ceil(a / b)` is the least whole number of days covering `a` |
| BillCard.DaysUntilDueIsDayDifference | src/components/bills/BillCard.jsx:6 | the days left are the calendar days from today to the due day, whatever the time of day |
| BillCard.ExactlyOneLabel | src/components/bills/BillCard.jsx:7-44 | exactly one label shows: Overdue below 0, Due Soon from 0 to 7, else the count, which is then above 7 or NaN |
| BillCard.LabelOfDueDay | src/components/bills/BillCard.jsx:6-44 | overdue once the due day is past, due soon from a week before it, a day count before that |

## Left out

- Every call to the entity store: authentication, `filter`, `create`, `update`, `delete`, `bulkCreate`. These are I/O against a store whose code is not part of this model. Their effect is modelled as returned or updated lists of records. The store's `created_by` scoping and record ids are not modelled.
- React state, query caching and invalidation, rendering, navigation, `alert`, and the random sayings. `confirm` is taken as accepted.
- The `try`/`catch` error paths. A store call that fails part-way, leaving some bills updated, is not modelled.
- Payday.MarkComplete: a missing and an empty `next_payday` are both the empty text, and the model then changes nothing (outcome `NoPaydaySet`). In the code the complete button is disabled while no next payday is set (src/pages/Payday.jsx:371), so the handler is not reached then. Were it reached, a missing `next_payday` would throw at `split` before any write, while a stored empty one would write the text `NaN-NaN-NaN`. That second path is not modelled.
- The local time zone and daylight saving time. Days and instants are counted as if local time were UTC. So `new Date("YYYY-MM-DD")` (UTC midnight) and `new Date(y, m, d)` (local midnight) agree.
- The range limit of JavaScript dates (±8.64·10^15 ms): day numbers are unbounded.
- Floating point: amounts and percentages are reals. `toFixed` and `toLocaleString` display formatting is left out.
- `null` field values. A missing field is `undefined`. `null`, which counts as 0 in arithmetic, is not distinguished from a missing field.
- Civil.FieldNumber: `Number()` on a date field is modelled for the empty text (0) and for plain digit strings. Any other text (signs, spaces, decimals) is taken as NaN, which is weaker than `Number()`.
- Civil.IsoDay: `new Date(text)` is modelled for date-only `YYYY-MM-DD` strings with a four-digit year. Any other text is an Invalid Date, as in the ECMAScript date-time string format. Engine-specific fallback parsing is not modelled.
- ASCII only: `toLowerCase` is modelled for ASCII letters. Other characters are left as they are.
- DebtForm: `parseFloat` and `parseInt` of typed text are not modelled character by character. A filled-in input is an abstract parsed value, and a stored whole number parses to itself.
- Budget: only the monthly income and the three percentages are modelled. `has_hysa` and the budget's other fields are not.
- DebtForm.PaymentBill: the generated bills carry no `is_autopay` in the code, so it is undefined there and becomes the history's `was_autopay`. The model writes `false`, which is falsy in the same places.
- Payday history: the lists of allocated debts and savings goals are always empty, and both unallocated amounts are always 0. They are not represented.
- The one-time deposits listed on the payday page are only displayed.
- The income, bill, transaction and asset forms pass their fields to the store unchanged. The onboarding flow, the savings and debt cards, the splash screen and the page configuration are display and routing only.
