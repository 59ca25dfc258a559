/** The bills page: the monthly bills allocation and the list of bills
    narrowed by a search text and a category. */
module BillsPage {
  import opened Common
  import opened Records
  import Settings

  /** `budget ? monthly_income * (bills_percentage / 100) : 0`. */
  function BillsAllocation(budget: Option<Budget>): (r: Option<real>)
    ensures budget.None? ==> r == Some(0.0)
    ensures budget.Some? ==> r == PercentOf(budget.value.monthlyIncome, budget.value.billsPercentage)
  {
    if budget.Some? then PercentOf(budget.value.monthlyIncome, budget.value.billsPercentage) else Some(0.0)
  }

  /** With a budget holding both numbers the allocation is that share of the
      monthly income; a share from 0 to 100 percent of a non-negative income
      lies between nothing and the whole income. */
  lemma BillsAllocationShare(budget: Budget, income: real, pct: real)
    requires budget.monthlyIncome == Some(income) && budget.billsPercentage == Some(pct)
    ensures BillsAllocation(Some(budget)).Some?
    ensures BillsAllocation(Some(budget)).value * 100.0 == income * pct
    ensures income >= 0.0 && 0.0 <= pct <= 100.0 ==> 0.0 <= BillsAllocation(Some(budget)).value <= income
  {
    if income >= 0.0 && 0.0 <= pct <= 100.0 {
      assert income * pct <= income * 100.0;
    }
  }

  /** `budget?.bills_percentage || 50`, the percentage printed beside the allocation. */
  function DisplayedBillsPercentage(budget: Option<Budget>): (r: real)
    ensures budget.Some? && Truthy(budget.value.billsPercentage) ==> r == budget.value.billsPercentage.value
    ensures !(budget.Some? && Truthy(budget.value.billsPercentage)) ==> r == 50.0
  {
    if budget.Some? && Truthy(budget.value.billsPercentage) then budget.value.billsPercentage.value else 50.0
  }

  /** The percentage printed on the bills page is the one the settings form
      opens with for the same budget. */
  lemma DisplayedMatchesSettings(budget: Option<Budget>)
    ensures Some(DisplayedBillsPercentage(budget)) == Settings.FormDefaults(budget).bills
  {
  }

  /** The predicate of `filteredBills`: the lower-cased name contains the
      lower-cased search text, and the filter is `'all'` or the bill's category. */
  predicate Matches(bill: Bill, query: string, category: string) {
    Contains(ToLower(bill.name), ToLower(query)) && (category == "all" || bill.category == category)
  }

  /** `bills.filter(...)` with `Matches`. */
  function FilteredBills(bills: seq<Bill>, query: string, category: string): (r: seq<Bill>)
    ensures forall b :: b in r <==> b in bills && Matches(b, query, category)
  {
    if bills == [] then []
    else
      var rest := FilteredBills(bills[1..], query, category);
      if Matches(bills[0], query, category) then [bills[0]] + rest else rest
  }

  /** The filtered list keeps the matching bills in their order, each as
      often as it occurs, and drops every other bill. */
  lemma {:induction false} FilteredBillsKeepsOrder(bills: seq<Bill>, query: string, category: string)
    ensures Subsequence(FilteredBills(bills, query, category), bills)
    ensures forall b :: multiset(FilteredBills(bills, query, category))[b]
                        == if Matches(b, query, category) then multiset(bills)[b] else 0
  {
    if bills != [] {
      var r := FilteredBills(bills, query, category);
      var rest := FilteredBills(bills[1..], query, category);
      FilteredBillsKeepsOrder(bills[1..], query, category);
      assert bills == [bills[0]] + bills[1..];
      if Matches(bills[0], query, category) {
        assert r[1..] == rest;
      } else {
        SubsequenceOfTail(rest, bills);
      }
    }
  }

  /** An empty search with the `'all'` filter shows every bill. */
  lemma {:induction false} EmptySearchKeepsAll(bills: seq<Bill>)
    ensures FilteredBills(bills, "", "all") == bills
  {
    if bills != [] {
      assert IsPrefix(ToLower(""), ToLower(bills[0].name));
      EmptySearchKeepsAll(bills[1..]);
    }
  }

  /** The search ignores the case of ASCII letters: a bill matches exactly
      when the lower-cased search text occurs somewhere in its lower-cased name. */
  lemma MatchesIff(bill: Bill, query: string, category: string)
    ensures Matches(bill, query, category) <==>
              (exists i :: OccursAt(ToLower(bill.name), ToLower(query), i))
              && (category == "all" || bill.category == category)
  {
    var name := ToLower(bill.name);
    var q := ToLower(query);
    ContainsIffOccurs(name, q);
    if Contains(name, q) {
      var i :| OccursAt(name, q, i);
      assert OccursAt(ToLower(bill.name), ToLower(query), i);
      assert exists j :: OccursAt(ToLower(bill.name), ToLower(query), j);
      if category == "all" || bill.category == category {
        assert Matches(bill, query, category);
      }
    }
  }
}
