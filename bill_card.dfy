/** A bill's card: how many days remain until the bill is due, and the one
    status label shown for it. */
module BillCard {
  import opened Common
  import opened Civil

  /** `Math.ceil(a / b)` for a positive divisor. */
  function CeilDiv(a: int, b: int): (r: int)
    requires b > 0
    ensures (r - 1) * b < a <= r * b
  {
    -((-a) / b)
  }

  /** `Math.ceil((new Date(due_date) - new Date()) / (1000 * 60 * 60 * 24))`
      at the instant `nowMs`; NaN (`None`) when the due date does not parse. */
  function DaysUntilDue(dueDate: string, nowMs: int): Option<int> {
    match IsoDay(dueDate)
    case None => None
    case Some(d) => Some(CeilDiv(d * MsPerDay - nowMs, MsPerDay))
  }

  /** The count is the number of calendar days from today to the due day:
      0 on the due day itself at any time of day, negative once it is past. */
  lemma DaysUntilDueIsDayDifference(dueDate: string, nowMs: int)
    requires IsoDay(dueDate).Some?
    ensures DaysUntilDue(dueDate, nowMs) == Some(IsoDay(dueDate).value - nowMs / MsPerDay)
  {
    var d := IsoDay(dueDate).value;
    var today := nowMs / MsPerDay;
    var k := d - today;
    var r := CeilDiv(d * MsPerDay - nowMs, MsPerDay);
    assert today * MsPerDay <= nowMs < today * MsPerDay + MsPerDay;
    assert d * MsPerDay - nowMs == k * MsPerDay - (nowMs - today * MsPerDay);
    CeilOfDays(k, nowMs - today * MsPerDay, r);
  }

  /** The ceiling of `k` days less a part of a day is `k`. */
  lemma CeilOfDays(k: int, part: int, r: int)
    requires 0 <= part < MsPerDay
    requires (r - 1) * MsPerDay < k * MsPerDay - part <= r * MsPerDay
    ensures r == k
  {
    EarlierMidnight(r - 1, k);
    EarlierMidnight(k - 1, r);
  }

  datatype Label = Overdue | DueSoon | DaysLeft(days: Option<int>)

  /** `daysUntilDue < 0`; false for NaN. */
  predicate IsOverdue(days: Option<int>) {
    days.Some? && days.value < 0
  }

  /** `daysUntilDue >= 0 && daysUntilDue <= 7`; false for NaN. */
  predicate IsDueSoon(days: Option<int>) {
    days.Some? && 0 <= days.value <= 7
  }

  /** The labels the card renders, in order: one for each of its three
      independent conditions that holds. */
  function Labels(days: Option<int>): seq<Label> {
    (if IsOverdue(days) then [Overdue] else [])
    + (if IsDueSoon(days) && !IsOverdue(days) then [DueSoon] else [])
    + (if !IsOverdue(days) && !IsDueSoon(days) then [DaysLeft(days)] else [])
  }

  /** The card shows exactly one label: Overdue for a negative count, Due
      Soon for 0 to 7, and otherwise the count itself, which is then more
      than 7 days (or NaN for a due date that does not parse). */
  lemma ExactlyOneLabel(days: Option<int>)
    ensures |Labels(days)| == 1
    ensures Labels(days)[0] == Overdue <==> days.Some? && days.value < 0
    ensures Labels(days)[0] == DueSoon <==> days.Some? && 0 <= days.value <= 7
    ensures Labels(days)[0].DaysLeft? ==> Labels(days)[0].days == days && (days.None? || days.value > 7)
  {
  }

  /** On the calendar: a bill is overdue once its due day is past, due soon
      from its due day back to a week before it, and counted in days before that. */
  lemma LabelOfDueDay(dueDate: string, nowMs: int)
    requires IsoDay(dueDate).Some?
    ensures var k := IsoDay(dueDate).value - nowMs / MsPerDay;
            var shown := Labels(DaysUntilDue(dueDate, nowMs))[0];
            && (shown == Overdue <==> k < 0)
            && (shown == DueSoon <==> 0 <= k <= 7)
            && (shown == DaysLeft(Some(k)) <==> k > 7)
  {
    DaysUntilDueIsDayDifference(dueDate, nowMs);
    ExactlyOneLabel(DaysUntilDue(dueDate, nowMs));
  }
}
