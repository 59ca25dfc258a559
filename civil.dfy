/** Calendar days as JavaScript's `Date` sees them.

    A calendar day is an integer: the number of days since 1970-01-01 in
    the proleptic Gregorian calendar. A time of day is kept only where the
    app compares instants; it is then an integer count of milliseconds.
    The local time zone is taken to be UTC with no daylight saving.

    The module gives the two conversions between civil dates and day
    numbers with both round trips proved, the day arithmetic of the
    `Date(y, m, d)` constructor and of `setMonth`/`setDate` (which roll an
    overflowing day into the following month instead of clamping it), and
    the `YYYY-MM-DD` text the app writes and reads. */
module Civil {
  import opened Common

  const MsPerDay: int := 86_400_000

  /** Days from 0000-01-01 to 1970-01-01. */
  const EpochOffset: int := 719_528

  /** A civil date; `month` counts from 1. */
  datatype Date = Date(year: int, month: int, day: int)

  predicate IsLeapYear(y: int) {
    y % 4 == 0 && (y % 100 != 0 || y % 400 == 0)
  }

  function DaysInYear(y: int): int {
    if IsLeapYear(y) then 366 else 365
  }

  function DaysInMonth(y: int, m: int): (n: int)
    requires 1 <= m <= 12
    ensures 28 <= n <= 31
  {
    if m == 2 then (if IsLeapYear(y) then 29 else 28)
    else if m == 4 || m == 6 || m == 9 || m == 11 then 30
    else 31
  }

  predicate Valid(d: Date) {
    1 <= d.month <= 12 && 1 <= d.day <= DaysInMonth(d.year, d.month)
  }

  /** Days from 0000-01-01 to the first of January of year `y`. */
  function DaysBeforeYear(y: int): int {
    365 * y + (y + 3) / 4 - (y + 99) / 100 + (y + 399) / 400
  }

  /** Days from the first of January to the first of month `m` of year `y`. */
  function DaysBeforeMonth(y: int, m: int): int
    requires 1 <= m <= 12
  {
    var common :=
      if m == 1 then 0 else if m == 2 then 31 else if m == 3 then 59
      else if m == 4 then 90 else if m == 5 then 120 else if m == 6 then 151
      else if m == 7 then 181 else if m == 8 then 212 else if m == 9 then 243
      else if m == 10 then 273 else if m == 11 then 304 else 334;
    common + (if m > 2 && IsLeapYear(y) then 1 else 0)
  }

  /** The day number of the first of month `m` of year `y`. */
  function FirstOfMonth(y: int, m: int): int
    requires 1 <= m <= 12
  {
    DaysBeforeYear(y) + DaysBeforeMonth(y, m) - EpochOffset
  }

  /** Days-from-civil: the day number of a date. */
  function DayNumber(d: Date): int
    requires 1 <= d.month <= 12
  {
    FirstOfMonth(d.year, d.month) + d.day - 1
  }

  // ---- facts about the year and month tables ---------------------------------

  lemma FloorBounds(y: int)
    ensures y <= 4 * ((y + 3) / 4) <= y + 3
    ensures y <= 100 * ((y + 99) / 100) <= y + 99
    ensures y <= 400 * ((y + 399) / 400) <= y + 399
  {
  }

  /** A year has 365 days, or 366 in a leap year. */
  lemma YearLength(y: int)
    ensures DaysBeforeYear(y + 1) == DaysBeforeYear(y) + DaysInYear(y)
  {
    CeilStep(y, 4);
    CeilStep(y, 100);
    CeilStep(y, 400);
    var s4 := if y % 4 == 0 then 1 else 0;
    var s100 := if y % 100 == 0 then 1 else 0;
    var s400 := if y % 400 == 0 then 1 else 0;
    assert DaysBeforeYear(y + 1) == DaysBeforeYear(y) + 365 + s4 - s100 + s400;
    Divides(y);
    assert DaysInYear(y) == 365 + s4 - s100 + s400;
  }

  /** Every fourth-century year is a century year, and every century year a fourth year. */
  lemma Divides(y: int)
    ensures y % 400 == 0 ==> y % 100 == 0
    ensures y % 100 == 0 ==> y % 4 == 0
  {
    if y % 400 == 0 {
      DivOf(y, 100, 4 * (y / 400), 0);
      assert y == 100 * (4 * (y / 400));
    }
    if y % 100 == 0 {
      assert y == 4 * (25 * (y / 100));
    }
  }

  /** `(y + k) / k` exceeds `(y + k - 1) / k` exactly when `k` divides `y`. */
  lemma CeilStep(y: int, k: int)
    requires k == 4 || k == 100 || k == 400
    ensures (y + k) / k == (y + k - 1) / k + (if y % k == 0 then 1 else 0)
  {
    var q, r := y / k, y % k;
    DivOf(y + k, k, q + 1, r);
    if r == 0 {
      DivOf(y + k - 1, k, q, k - 1);
    } else {
      DivOf(y + k - 1, k, q + 1, r - 1);
    }
  }

  /** Integer division by 4, 100 or 400 recovers the quotient. */
  lemma DivOf(a: int, k: int, q: int, r: int)
    requires k == 4 || k == 100 || k == 400
    requires 0 <= r < k && a == k * q + r
    ensures a / k == q
  {
  }

  /** `DaysBeforeYear` grows by 365.2425 days a year, to within two days. */
  lemma DaysBeforeYearBounds(y: int)
    ensures 146097 * y - 396 <= 400 * DaysBeforeYear(y) <= 146097 * y + 699
  {
    FloorBounds(y);
  }

  /** Later years start later. */
  lemma DaysBeforeYearMonotone(a: int, b: int)
    requires a < b
    ensures DaysBeforeYear(a) < DaysBeforeYear(b)
  {
    FloorBounds(a);
    FloorBounds(b);
  }

  lemma MonthTable(y: int, m: int)
    requires 1 <= m <= 12
    ensures m < 12 ==> DaysBeforeMonth(y, m + 1) == DaysBeforeMonth(y, m) + DaysInMonth(y, m)
    ensures m == 12 ==> DaysBeforeMonth(y, m) + DaysInMonth(y, m) == DaysInYear(y)
  {
  }

  /** The first of the following month comes `DaysInMonth` days after the first of this one. */
  lemma NextFirstOfMonth(y: int, m: int)
    requires 1 <= m <= 12
    ensures m < 12 ==> FirstOfMonth(y, m + 1) == FirstOfMonth(y, m) + DaysInMonth(y, m)
    ensures m == 12 ==> FirstOfMonth(y + 1, 1) == FirstOfMonth(y, m) + DaysInMonth(y, m)
  {
    MonthTable(y, m);
    YearLength(y);
  }

  // ---- civil-from-days ---------------------------------------------------------

  /** The year in which day `z` (counted from 0000-01-01) falls. */
  function YearOf(z: int): (y: int)
    ensures DaysBeforeYear(y) <= z < DaysBeforeYear(y + 1)
  {
    var e := 400 * z / 146097;
    DaysBeforeYearBounds(e - 1);
    DaysBeforeYearBounds(e + 2);
    if DaysBeforeYear(e + 1) <= z then
      YearLength(e + 1);
      e + 1
    else if DaysBeforeYear(e) <= z then
      e
    else
      YearLength(e - 1);
      e - 1
  }

  /** The month, searched downwards from `m`, into which day `doy` of year `y` falls. */
  function MonthFrom(y: int, doy: int, m: int): (r: int)
    requires 1 <= m <= 12
    requires 0 <= doy < DaysBeforeMonth(y, m) + DaysInMonth(y, m)
    ensures 1 <= r <= m
    ensures DaysBeforeMonth(y, r) <= doy < DaysBeforeMonth(y, r) + DaysInMonth(y, r)
    decreases m
  {
    if m == 1 || DaysBeforeMonth(y, m) <= doy then m
    else
      MonthTable(y, m - 1);
      MonthFrom(y, doy, m - 1)
  }

  /** The civil-from-days algorithm: finds the year, then the month, then the day. */
  function CivilOfDay(n: int): (d: Date)
    ensures Valid(d) && DayNumber(d) == n
  {
    var z := n + EpochOffset;
    var y := YearOf(z);
    var doy := z - DaysBeforeYear(y);
    YearLength(y);
    MonthTable(y, 12);
    var m := MonthFrom(y, doy, 12);
    Date(y, m, doy - DaysBeforeMonth(y, m) + 1)
  }

  /** The algorithm gives back every valid date from its day number. */
  lemma {:induction false} CivilOfDayRoundTrip(d: Date)
    requires Valid(d)
    ensures CivilOfDay(DayNumber(d)) == d
  {
    var z := DayNumber(d) + EpochOffset;
    var c := CivilOfDay(DayNumber(d));
    MonthEndsInYear(d.year, d.month);
    YearLength(d.year);
    YearUnique(c.year, d.year, z);
    MonthUnique(d.year, z - DaysBeforeYear(d.year), c.month, d.month);
  }

  /** Day numbers and valid dates correspond one to one. */
  lemma DayNumberInjective(d1: Date, d2: Date)
    requires Valid(d1) && Valid(d2) && DayNumber(d1) == DayNumber(d2)
    ensures d1 == d2
  {
    CivilOfDayRoundTrip(d1);
    CivilOfDayRoundTrip(d2);
  }

  lemma DayNumbersDistinct()
    ensures forall d1: Date, d2: Date :: Valid(d1) && Valid(d2) && DayNumber(d1) == DayNumber(d2) ==> d1 == d2
  {
    forall d1: Date, d2: Date | Valid(d1) && Valid(d2) && DayNumber(d1) == DayNumber(d2) {
      DayNumberInjective(d1, d2);
    }
  }

  /** Civil-from-days: the one valid date whose day number is `n`. */
  function CivilFromDays(n: int): (d: Date)
    ensures Valid(d) && DayNumber(d) == n
  {
    DayNumbersDistinct();
    assert Valid(CivilOfDay(n)) && DayNumber(CivilOfDay(n)) == n;
    var d :| Valid(d) && DayNumber(d) == n;
    d
  }

  /** Days-from-civil followed by civil-from-days gives back every valid date. */
  lemma CivilRoundTrip(d: Date)
    requires Valid(d)
    ensures CivilFromDays(DayNumber(d)) == d
  {
    DayNumberInjective(CivilFromDays(DayNumber(d)), d);
  }

  lemma MonthEndsInYear(y: int, m: int)
    requires 1 <= m <= 12
    ensures DaysBeforeMonth(y, m) + DaysInMonth(y, m) <= DaysInYear(y)
  {
    MonthTable(y, 12);
    if m < 12 {
      MonthBefore(y, m, 12);
    }
  }

  /** At most one year contains a given day. */
  lemma YearUnique(y1: int, y2: int, z: int)
    requires DaysBeforeYear(y1) <= z < DaysBeforeYear(y1 + 1)
    requires DaysBeforeYear(y2) <= z < DaysBeforeYear(y2 + 1)
    ensures y1 == y2
  {
    if y1 + 1 < y2 + 1 && y1 + 1 != y2 {
      DaysBeforeYearMonotone(y1 + 1, y2);
    }
    if y2 + 1 < y1 + 1 && y2 + 1 != y1 {
      DaysBeforeYearMonotone(y2 + 1, y1);
    }
  }

  /** At most one month of a year contains a given day of that year. */
  lemma MonthUnique(y: int, doy: int, m1: int, m2: int)
    requires 1 <= m1 <= 12 && 1 <= m2 <= 12
    requires DaysBeforeMonth(y, m1) <= doy < DaysBeforeMonth(y, m1) + DaysInMonth(y, m1)
    requires DaysBeforeMonth(y, m2) <= doy < DaysBeforeMonth(y, m2) + DaysInMonth(y, m2)
    ensures m1 == m2
  {
    if m1 < m2 {
      MonthBefore(y, m1, m2);
    }
    if m2 < m1 {
      MonthBefore(y, m2, m1);
    }
  }

  /** A month ends no later than any later month begins. */
  lemma {:induction false} MonthBefore(y: int, a: int, b: int)
    requires 1 <= a < b <= 12
    ensures DaysBeforeMonth(y, a) + DaysInMonth(y, a) <= DaysBeforeMonth(y, b)
    decreases b - a
  {
    MonthTable(y, a);
    if a + 1 < b {
      MonthBefore(y, a + 1, b);
    }
  }

  /** Midnights compare as their days do. */
  lemma EarlierMidnight(a: int, b: int)
    requires a * MsPerDay < b * MsPerDay
    ensures a < b
  {
    assert (b - a) * MsPerDay == b * MsPerDay - a * MsPerDay;
  }

  /** Later days have later midnights. */
  lemma LaterMidnight(a: int, b: int)
    requires a >= b
    ensures a * MsPerDay >= b * MsPerDay
  {
  }

  // ---- the operations of JavaScript's Date ------------------------------------

  /** ECMAScript MakeDay: the month index carries into the year, and the day
      is counted on from the first of that month, so a day past the end of
      the month runs on into the following month. */
  function MakeDay(y: int, monthIndex: int, day: int): int {
    FirstOfMonth(y + monthIndex / 12, monthIndex % 12 + 1) + day - 1
  }

  /** The year argument of `new Date(y, m, d)`: 0..99 stand for 1900..1999. */
  function ConstructorYear(y: int): int {
    if 0 <= y <= 99 then 1900 + y else y
  }

  /** `new Date(y, monthIndex, day)`, as the day number of its local midnight. */
  function NewDate(y: int, monthIndex: int, day: int): int {
    MakeDay(ConstructorYear(y), monthIndex, day)
  }

  /** `getFullYear()`, `getMonth()` (from 0) and `getDate()`. */
  function GetFullYear(n: int): int { CivilFromDays(n).year }
  function GetMonth(n: int): int { CivilFromDays(n).month - 1 }
  function GetDate(n: int): int { CivilFromDays(n).day }

  /** `setMonth(monthIndex)`: keeps the year and the day of the month. */
  function SetMonth(n: int, monthIndex: int): int {
    MakeDay(GetFullYear(n), monthIndex, GetDate(n))
  }

  /** `setDate(day)`: keeps the year and the month. */
  function SetDate(n: int, day: int): int {
    MakeDay(GetFullYear(n), GetMonth(n), day)
  }

  /** Within a month, MakeDay is days-from-civil. */
  lemma MakeDayOfValid(d: Date)
    requires 1 <= d.month <= 12
    ensures MakeDay(d.year, d.month - 1, d.day) == DayNumber(d)
  {
    MonthIndexInYear(d.month - 1);
  }

  /** `setDate(getDate() + k)` moves the date by exactly `k` days, across
      month and year ends alike. */
  lemma SetDateShifts(n: int, k: int)
    ensures SetDate(n, GetDate(n) + k) == n + k
  {
    var c := CivilFromDays(n);
    assert GetFullYear(n) == c.year && GetMonth(n) == c.month - 1 && GetDate(n) == c.day;
    MonthIndexInYear(c.month - 1);
    assert SetDate(n, c.day + k) == FirstOfMonth(c.year, c.month) + c.day + k - 1;
  }

  lemma MonthIndexInYear(mi: int)
    requires 0 <= mi < 12
    ensures mi / 12 == 0 && mi % 12 == mi
  {
  }

  /** The month that MakeDay's month index denotes once carried into the year. */
  function CarriedMonth(y: int, monthIndex: int): (d: Date)
    ensures 1 <= d.month <= 12 && d.day == 1
  {
    Date(y + monthIndex / 12, monthIndex % 12 + 1, 1)
  }

  /** The first day of the month after `d`'s month. */
  function NextMonth(d: Date): (r: Date)
    requires 1 <= d.month <= 12
    ensures 1 <= r.month <= 12 && r.day == 1
  {
    if d.month == 12 then Date(d.year + 1, 1, 1) else Date(d.year, d.month + 1, 1)
  }

  /** The first of the next month is as many days on as the month is long. */
  lemma NextMonthStart(d: Date)
    requires 1 <= d.month <= 12
    ensures DayNumber(NextMonth(d)) == FirstOfMonth(d.year, d.month) + DaysInMonth(d.year, d.month)
  {
    NextFirstOfMonth(d.year, d.month);
  }

  /** Day `day` of month `t`, rolled into the following month when `t` is shorter. */
  function RollOver(t: Date, day: int): Date
    requires 1 <= t.month <= 12
  {
    var len := DaysInMonth(t.year, t.month);
    if day <= len then Date(t.year, t.month, day)
    else
      var nx := NextMonth(t);
      Date(nx.year, nx.month, day - len)
  }

  /** MakeDay with a day of the month from 1 to 31: the day stands as given
      when the month has that many days, and otherwise the excess days roll
      over into the following month (no clamping to the month's last day). */
  lemma {:induction false} MakeDayRollsOver(y: int, monthIndex: int, day: int)
    requires 1 <= day <= 31
    ensures CivilFromDays(MakeDay(y, monthIndex, day)) == RollOver(CarriedMonth(y, monthIndex), day)
  {
    var t := CarriedMonth(y, monthIndex);
    var r := RollOver(t, day);
    RollOverSameDay(t, day);
    assert MakeDay(y, monthIndex, day) == DayNumber(Date(t.year, t.month, day));
    CivilRoundTrip(r);
  }

  /** `MakeDayRollsOver`, for a day number already known to be that MakeDay. */
  lemma DayOfMakeDay(y: int, monthIndex: int, day: int, n: int)
    requires 1 <= day <= 31 && n == MakeDay(y, monthIndex, day)
    ensures CivilFromDays(n) == RollOver(CarriedMonth(y, monthIndex), day)
  {
    MakeDayRollsOver(y, monthIndex, day);
  }

  /** `RollOver` names a valid date with the same day number. */
  lemma RollOverSameDay(t: Date, day: int)
    requires 1 <= t.month <= 12 && 1 <= day <= 31
    ensures Valid(RollOver(t, day))
    ensures DayNumber(RollOver(t, day)) == DayNumber(Date(t.year, t.month, day))
  {
    NextFirstOfMonth(t.year, t.month);
  }

  /** One more month index moves MakeDay on by the length of the month, 28 to 31 days. */
  lemma MakeDayNextMonth(y: int, monthIndex: int, day: int)
    ensures var t := CarriedMonth(y, monthIndex);
            MakeDay(y, monthIndex + 1, day) == MakeDay(y, monthIndex, day) + DaysInMonth(t.year, t.month)
  {
    var t := CarriedMonth(y, monthIndex);
    NextFirstOfMonth(t.year, t.month);
    if monthIndex % 12 == 11 {
      assert (monthIndex + 1) / 12 == monthIndex / 12 + 1 && (monthIndex + 1) % 12 == 0;
    } else {
      assert (monthIndex + 1) / 12 == monthIndex / 12 && (monthIndex + 1) % 12 == monthIndex % 12 + 1;
    }
  }

  // ---- YYYY-MM-DD text ------------------------------------------------------------

  /** `${y}` for a year: no padding, a minus sign before a negative year. */
  function YearText(y: int): string {
    if y < 0 then "-" + Digits(-y) else Digits(y)
  }

  /** `String(k).padStart(2, '0')`. */
  function Pad2(k: nat): (s: string)
    ensures AllDigits(s)
  {
    if k < 10 then "0" + Digits(k) else Digits(k)
  }

  /** The app's date template `${getFullYear()}-${pad(getMonth() + 1)}-${pad(getDate())}`. */
  function Format(d: Date): string
    requires Valid(d)
  {
    YearText(d.year) + "-" + Pad2(d.month) + "-" + Pad2(d.day)
  }

  /** The same template on a day number, or on an Invalid Date (`None`),
      whose getters all give NaN. */
  function FormatDay(n: Option<int>): string {
    match n
    case None => "NaN-NaN-NaN"
    case Some(k) => Format(CivilFromDays(k))
  }

  /** `s.split('-')`. */
  function Split(s: string): (r: seq<string>)
    ensures |r| >= 1
  {
    if s == [] then [""]
    else
      var rest := Split(s[1..]);
      if s[0] == '-' then [""] + rest else [[s[0]] + rest[0]] + rest[1..]
  }

  /** `Number(f)` on one field of the split: the empty field is 0 and a run
      of digits is its value; anything else is NaN here. */
  function FieldNumber(f: string): Option<int> {
    if f == [] then Some(0)
    else if AllDigits(f) then Some(ValueOf(f))
    else None
  }

  /** `const [y, m, d] = s.split('-').map(Number); new Date(y, m - 1, d)`:
      the day number, or `None` for an Invalid Date. */
  function ParseDay(s: string): Option<int> {
    DayOfFields(Split(s))
  }

  /** The date that the first three fields of a split name. */
  function DayOfFields(fields: seq<string>): Option<int> {
    if |fields| < 3 then None
    else DayOfNumbers(FieldNumber(fields[0]), FieldNumber(fields[1]), FieldNumber(fields[2]))
  }

  /** `new Date(y, m - 1, d)`, which is an Invalid Date when any argument is NaN. */
  function DayOfNumbers(y: Option<int>, m: Option<int>, d: Option<int>): Option<int> {
    if y.Some? && m.Some? && d.Some? then Some(NewDate(y.value, m.value - 1, d.value)) else None
  }

  /** Ten characters `DDDD-DD-DD`. */
  predicate IsoShape(s: string) {
    && |s| == 10 && s[4] == '-' && s[7] == '-'
    && AllDigits(s[..4]) && AllDigits(s[5..7]) && AllDigits(s[8..])
  }

  /** The year, month and day written in a `DDDD-DD-DD` string. */
  function IsoFields(s: string): Date
    requires IsoShape(s)
  {
    Date(ValueOf(s[..4]), ValueOf(s[5..7]), ValueOf(s[8..]))
  }

  /** `new Date(s)` on a date-only ISO string: its day, or `None` (Invalid
      Date) when the text is not a real calendar date. */
  function IsoDay(s: string): Option<int> {
    if IsoShape(s) && Valid(IsoFields(s)) then Some(DayNumber(IsoFields(s))) else None
  }

  /** Splitting a field without '-' off the front. */
  lemma {:induction false} SplitField(a: string, b: string)
    requires '-' !in a
    ensures Split(a + "-" + b) == [a] + Split(b)
    ensures Split(a) == [a]
    decreases |a|
  {
    if a != [] {
      SplitField(a[1..], b);
      assert (a + "-" + b)[1..] == a[1..] + "-" + b;
      assert [a[0]] + a[1..] == a;
    }
  }

  lemma DigitsHaveNoDash(s: string)
    requires AllDigits(s)
    ensures '-' !in s
  {
    forall i | 0 <= i < |s|
      ensures s[i] != '-'
    {
      assert IsDigit(s[i]);
    }
  }

  lemma Pad2Value(k: nat)
    requires k < 100
    ensures ValueOf(Pad2(k)) == k && |Pad2(k)| == 2
  {
    DigitsLength(k);
    ValueOfDigits(k);
    if k < 10 {
      assert Pad2(k)[..1] == "0";
    } else {
      assert k / 10 < 10;
    }
  }

  /** Splitting three fields without '-' joined by '-'. */
  lemma SplitThree(a: string, b: string, c: string)
    requires AllDigits(a) && AllDigits(b) && AllDigits(c)
    ensures Split(a + "-" + b + "-" + c) == [a, b, c]
  {
    DigitsHaveNoDash(a);
    DigitsHaveNoDash(b);
    DigitsHaveNoDash(c);
    assert a + "-" + b + "-" + c == a + "-" + (b + "-" + c);
    SplitField(a, b + "-" + c);
    SplitField(b, c);
    SplitField(c, "");
  }

  /** What ParseDay makes of three digit fields. */
  lemma ParseDigitFields(a: string, b: string, c: string, y: int, m: int, d: int)
    requires AllDigits(a) && AllDigits(b) && AllDigits(c) && a != [] && b != [] && c != []
    requires ValueOf(a) == y && ValueOf(b) == m && ValueOf(c) == d
    ensures ParseDay(a + "-" + b + "-" + c) == Some(NewDate(y, m - 1, d))
  {
    SplitThree(a, b, c);
    DigitField(a);
    DigitField(b);
    DigitField(c);
    FieldsOfNumbers(a, b, c, y, m, d);
  }

  lemma FieldsOfNumbers(a: string, b: string, c: string, y: int, m: int, d: int)
    requires FieldNumber(a) == Some(y) && FieldNumber(b) == Some(m) && FieldNumber(c) == Some(d)
    ensures DayOfFields([a, b, c]) == Some(NewDate(y, m - 1, d))
  {
    var fields := [a, b, c];
    assert fields[0] == a && fields[1] == b && fields[2] == c;
  }

  lemma DigitField(a: string)
    requires AllDigits(a) && a != []
    ensures FieldNumber(a) == Some(ValueOf(a))
  {
  }

  /** Formatting a date and parsing the text again gives back the same day,
      for every year from 100 on (years 0 to 99 are read as 1900 to 1999). */
  lemma {:induction false} ParseFormatRoundTrip(n: int)
    requires GetFullYear(n) >= 100
    ensures ParseDay(FormatDay(Some(n))) == Some(n)
  {
    var c := CivilFromDays(n);
    var ys, ms, ds := Digits(c.year), Pad2(c.month), Pad2(c.day);
    assert FormatDay(Some(n)) == ys + "-" + ms + "-" + ds;
    ValueOfDigits(c.year);
    Pad2Value(c.month);
    Pad2Value(c.day);
    ParseDigitFields(ys, ms, ds, c.year, c.month, c.day);
    MakeDayOfValid(c);
  }

  /** A two-digit field with value `k` is `Pad2(k)`. */
  lemma Pad2OfText(t: string)
    requires |t| == 2 && AllDigits(t)
    ensures Pad2(ValueOf(t)) == t
  {
    var k := ValueOf(t);
    var t0 := t[..1];
    assert t0[..0] == [];
    assert ValueOf(t0) == DigitValue(t[0]);
    assert k == DigitValue(t[0]) * 10 + DigitValue(t[1]);
    if k < 10 {
      assert t[0] == '0';
    } else {
      assert k / 10 == DigitValue(t[0]) && k % 10 == DigitValue(t[1]);
      assert Digits(k / 10) == [t[0]];
      assert DigitChar(k % 10) == t[1];
      assert Digits(k) == [t[0]] + [t[1]];
    }
  }

  /** A well-formed `YYYY-MM-DD` string naming a real date with a four-digit
      year parses to that date, and formatting the result gives the string
      back; the ISO reading of `new Date(s)` agrees. */
  lemma {:induction false} FormatParseRoundTrip(s: string)
    requires IsoShape(s) && Valid(IsoFields(s)) && s[0] != '0'
    ensures ParseDay(s) == IsoDay(s) == Some(DayNumber(IsoFields(s)))
    ensures FormatDay(ParseDay(s)) == s
  {
    var d := IsoFields(s);
    IsoParse(s);
    CivilRoundTrip(d);
    IsoFormat(s);
  }

  /** The split-based parse reads a four-digit-year ISO date as that date. */
  lemma IsoParse(s: string)
    requires IsoShape(s) && Valid(IsoFields(s)) && s[0] != '0'
    ensures ParseDay(s) == Some(DayNumber(IsoFields(s)))
  {
    var ys, ms, ds := s[..4], s[5..7], s[8..];
    var d := IsoFields(s);
    assert s == ys + "-" + ms + "-" + ds;
    ParseDigitFields(ys, ms, ds, d.year, d.month, d.day);
    assert ys[0] == s[0];
    DigitsValueOf(ys);
    DigitsLength(d.year);
    MakeDayOfValid(d);
  }

  /** Formatting the date an ISO string names gives the string back. */
  lemma IsoFormat(s: string)
    requires IsoShape(s) && Valid(IsoFields(s)) && s[0] != '0'
    ensures Format(IsoFields(s)) == s
  {
    var ys, ms, ds := s[..4], s[5..7], s[8..];
    assert ys[0] == s[0];
    DigitsValueOf(ys);
    Pad2OfText(ms);
    Pad2OfText(ds);
    assert s == ys + "-" + ms + "-" + ds;
  }

  /** For years 1000 to 9999 the template gives ten characters `YYYY-MM-DD`
      with a four-digit year and a zero-padded month and day, naming the date. */
  lemma {:induction false} FormatShape(n: int)
    requires 1000 <= GetFullYear(n) <= 9999
    ensures IsoShape(FormatDay(Some(n)))
    ensures IsoFields(FormatDay(Some(n))) == CivilFromDays(n)
  {
    var c := CivilFromDays(n);
    var s := FormatDay(Some(n));
    var ys, ms, ds := Digits(c.year), Pad2(c.month), Pad2(c.day);
    DigitsLength(c.year);
    Pad2Value(c.month);
    Pad2Value(c.day);
    ValueOfDigits(c.year);
    assert s[..4] == ys && s[5..7] == ms && s[8..] == ds;
  }
}
