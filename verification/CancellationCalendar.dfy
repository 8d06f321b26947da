/** When a cancellation takes effect: months are counted from the end of the current period. */
module CancellationCalendar {
  import opened Options
  import opened Sums

  datatype Date = Date(year: int, month: int, day: int)

  const LAST_YEAR := 9999

  predicate Leap(year: int) { year % 4 == 0 && (year % 100 != 0 || year % 400 == 0) }

  // The length of a month.
  function DaysIn(year: int, month: int): (days: int)
    ensures 28 <= days <= 31
  {
    if month == 2 then (if Leap(year) then 29 else 28)
    else if month == 4 || month == 6 || month == 9 || month == 11 then 30
    else 31
  }

  // Days in a span of whole months of a year.
  function DaysUpTo(year: int, month: nat): nat {
    if month == 0 then 0 else DaysUpTo(year, month - 1) + DaysIn(year, month)
  }

  // Days before 1 January of a year: a leap day every four years, but not every hundred, and yet every four hundred.
  function DaysBefore(year: int): int { 365 * (year - 1) + (year - 1) / 4 - (year - 1) / 100 + (year - 1) / 400 }

  /** The months make up the Gregorian years: 30 and 31 days alternate, with a break between July and August, and
      February takes the rest of its year. */
  lemma MonthsMakeYears(year: int, month: int)
    requires 1 <= month <= 12
    ensures month != 2 ==> DaysIn(year, month) == 30 + (month + month / 8) % 2
    ensures DaysUpTo(year, 12) == DaysBefore(year + 1) - DaysBefore(year)
    ensures DaysBefore(year + 400) - DaysBefore(year) == 146097
  {
    YearByMonths(year);
    LeapDays(year);
    FourHundredYears(year - 1);
  }

  lemma YearByMonths(year: int)
    ensures DaysUpTo(year, 12) == 337 + DaysIn(year, 2)
  {
    assert DaysUpTo(year, 0) == 0;
    assert DaysUpTo(year, 1) == 31;
    assert DaysUpTo(year, 2) == 31 + DaysIn(year, 2);
    assert DaysUpTo(year, 3) == 62 + DaysIn(year, 2);
    assert DaysUpTo(year, 4) == 92 + DaysIn(year, 2);
    assert DaysUpTo(year, 5) == 123 + DaysIn(year, 2);
    assert DaysUpTo(year, 6) == 153 + DaysIn(year, 2);
    assert DaysUpTo(year, 7) == 184 + DaysIn(year, 2);
    assert DaysUpTo(year, 8) == 215 + DaysIn(year, 2);
    assert DaysUpTo(year, 9) == 245 + DaysIn(year, 2);
    assert DaysUpTo(year, 10) == 276 + DaysIn(year, 2);
    assert DaysUpTo(year, 11) == 306 + DaysIn(year, 2);
  }

  // A year counts where it divides.
  lemma LeapDays(year: int)
    ensures year / 4 - (year - 1) / 4 == if year % 4 == 0 then 1 else 0
    ensures year / 100 - (year - 1) / 100 == if year % 100 == 0 then 1 else 0
    ensures year / 400 - (year - 1) / 400 == if year % 400 == 0 then 1 else 0
    ensures (year % 400 == 0 ==> year % 100 == 0) && (year % 100 == 0 ==> year % 4 == 0)
  {
  }

  lemma FourHundredYears(y: int)
    ensures (y + 400) / 4 == y / 4 + 100 && (y + 400) / 100 == y / 100 + 4 && (y + 400) / 400 == y / 400 + 1
  {
  }

  predicate Valid(d: Date) { 1 <= d.year <= LAST_YEAR && 1 <= d.month <= 12 && 1 <= d.day <= DaysIn(d.year, d.month) }

  predicate Earlier(a: Date, b: Date) {
    a.year < b.year || (a.year == b.year && (a.month < b.month || (a.month == b.month && a.day < b.day)))
  }

  // ----- Counting days -----

  // 1 January of the year 1 is day 1.
  function DayNumber(d: Date): int
    requires 1 <= d.month
  {
    DaysBefore(d.year) + DaysUpTo(d.year, d.month - 1) + d.day
  }

  lemma {:induction false} LaterMonths(year: int, m: nat, n: nat)
    requires m <= n
    ensures DaysUpTo(year, n) - DaysUpTo(year, m) >= 28 * (n - m)
  {
    if m < n { LaterMonths(year, m, n - 1); }
  }

  lemma {:induction false} LaterYears(y: int, z: int)
    requires y <= z
    ensures DaysBefore(y) <= DaysBefore(z)
    decreases z - y
  {
    if y < z {
      LaterYears(y, z - 1);
      MonthsMakeYears(z - 1, 1);
      LaterMonths(z - 1, 0, 12);
    }
  }

  // A day lies within its year.
  lemma WithinTheYear(d: Date)
    requires Valid(d)
    ensures DaysBefore(d.year) < DayNumber(d) <= DaysBefore(d.year + 1)
  {
    MonthsMakeYears(d.year, d.month);
    LaterMonths(d.year, 0, d.month - 1);
    LaterMonths(d.year, d.month, 12);
    assert DaysUpTo(d.year, d.month) == DaysUpTo(d.year, d.month - 1) + DaysIn(d.year, d.month);
  }

  lemma EarlierCountsLess(a: Date, b: Date)
    requires Valid(a) && Valid(b) && Earlier(a, b)
    ensures DayNumber(a) < DayNumber(b)
  {
    if a.year < b.year {
      WithinTheYear(a);
      WithinTheYear(b);
      LaterYears(a.year + 1, b.year);
    } else if a.month < b.month {
      assert DaysUpTo(a.year, a.month) == DaysUpTo(a.year, a.month - 1) + DaysIn(a.year, a.month);
      LaterMonths(a.year, a.month, b.month - 1);
    }
  }

  /** One date is earlier than another exactly if it has the smaller number in the count of all days. */
  lemma EarlierIsByDays(a: Date, b: Date)
    requires Valid(a) && Valid(b)
    ensures Earlier(a, b) <==> DayNumber(a) < DayNumber(b)
    ensures DayNumber(a) == DayNumber(b) ==> a == b
  {
    if Earlier(a, b) {
      EarlierCountsLess(a, b);
    } else if a != b {
      EarlierCountsLess(b, a);
    }
  }

  // The day after.
  function Tomorrow(d: Date): Date {
    if d.day < DaysIn(d.year, d.month) then d.(day := d.day + 1)
    else if d.month < 12 then Date(d.year, d.month + 1, 1)
    else Date(d.year + 1, 1, 1)
  }

  /** The dates are all days from the first one, 1 January of the year 1, to 31 December of the year 9999, one after the
      other. */
  lemma DatesAreConsecutive(d: Date)
    requires Valid(d)
    ensures DayNumber(d) == 1 <==> d.year == d.month == d.day == 1
    ensures 1 <= DayNumber(d) <= DaysBefore(LAST_YEAR + 1)
    ensures (d.year == 9999 && d.month == 12 && d.day == 31)
            || (Valid(Tomorrow(d)) && DayNumber(Tomorrow(d)) == DayNumber(d) + 1)
  {
    WithinTheYear(d);
    LaterYears(1, d.year);
    LaterYears(d.year + 1, LAST_YEAR + 1);
    FirstDayIsFirst(d);
    if !(d.year == LAST_YEAR && d.month == 12 && d.day == 31) { TomorrowIsNext(d); }
  }

  lemma FirstDayIsFirst(d: Date)
    requires Valid(d)
    ensures DayNumber(d) == 1 <==> d.year == d.month == d.day == 1
  {
    DaysInTheYear(d.year, d.month);
    if d.year > 1 {
      LaterYears(2, d.year);
      assert DaysBefore(2) == 365;
    } else {
      assert DaysBefore(d.year) == 0;
    }
  }

  lemma DaysInTheYear(year: int, month: int)
    requires 1 <= month <= 12
    ensures DaysUpTo(year, month - 1) >= 28 * (month - 1) && (month == 1 ==> DaysUpTo(year, month - 1) == 0)
  {
    LaterMonths(year, 0, month - 1);
  }

  lemma TomorrowIsNext(d: Date)
    requires Valid(d) && !(d.year == LAST_YEAR && d.month == 12 && d.day == 31)
    ensures Valid(Tomorrow(d)) && DayNumber(Tomorrow(d)) == DayNumber(d) + 1
  {
    assert DaysUpTo(d.year, d.month) == DaysUpTo(d.year, d.month - 1) + DaysIn(d.year, d.month);
    if d.month == 12 {
      MonthsMakeYears(d.year, 12);
      assert DaysUpTo(d.year + 1, 0) == 0;
    }
  }

  // ----- Counting months -----

  // Months since the year 0.
  function Months(d: Date): int { 12 * d.year + d.month - 1 }

  // The last day of a month, counted in months since the year 0.
  function LastDay(months: int): (day: int)
    ensures 28 <= day <= 31
  {
    DaysIn(months / 12, months % 12 + 1)
  }

  predicate AtMonthEnd(d: Date) { d.day == DaysIn(d.year, d.month) }

  // ----- Adding months -----

  // The date is out of range, and building it fails, from the year 10000 on.
  function AddMonths(d: Date, n: nat): Option<Date> {
    var month := d.month - 1 + n;
    var year := d.year + month / 12;
    if year > LAST_YEAR then None
    else Some(Date(year, month % 12 + 1, Min(d.day, DaysIn(year, month % 12 + 1))))
  }

  /** Adding n months lands exactly n months later, on the same day, or on the last day of a shorter month. */
  lemma AddMonthsIsExact(d: Date, n: nat)
    requires Valid(d)
    ensures AddMonths(d, n).Some? <==> Months(d) + n <= 12 * LAST_YEAR + 11
    ensures AddMonths(d, n).Some? ==>
              && Valid(AddMonths(d, n).value) && Months(AddMonths(d, n).value) == Months(d) + n
              && AddMonths(d, n).value.day == Min(d.day, LastDay(Months(d) + n))
  {
    MonthParts(d.year, d.month - 1 + n);
  }

  lemma MonthParts(year: int, month: nat)
    ensures (12 * year + month) / 12 == year + month / 12 && (12 * year + month) % 12 == month % 12
    ensures 12 * (year + month / 12) + month % 12 == 12 * year + month
  {
    assert month == 12 * (month / 12) + month % 12;
    assert 12 * year + month == 12 * (year + month / 12) + month % 12;
  }

  // A date is its month together with its day.
  lemma SameDate(a: Date, b: Date)
    requires 1 <= a.month <= 12 && 1 <= b.month <= 12 && Months(a) == Months(b) && a.day == b.day
    ensures a == b
  {
  }

  /** Adding months in two goes agrees with adding them at once exactly if the stop on the way is not clipped below
      the day reached at the end. */
  lemma TwoGoesAgreeExactly(d: Date, m: nat, n: nat)
    requires Valid(d) && Months(d) + m + n <= 12 * LAST_YEAR + 11
    ensures AddMonths(d, m).Some? && AddMonths(d, m + n).Some?
    ensures AddMonths(AddMonths(d, m).value, n) == AddMonths(d, m + n)
            <==> Min(d.day, LastDay(Months(d) + m)) >= Min(d.day, LastDay(Months(d) + m + n))
  {
    AddMonthsIsExact(d, m);
    AddMonthsIsExact(d, m + n);
    var stop := AddMonths(d, m).value;
    AddMonthsIsExact(stop, n);
    if AddMonths(stop, n).value.day == AddMonths(d, m + n).value.day {
      SameDate(AddMonths(stop, n).value, AddMonths(d, m + n).value);
    }
  }

  // ----- Monthly boundaries -----

  /** The k-th end of a period after `current`: the anchor's day, or the last day of a shorter month; the last day of
      every month if the anchor is one. */
  function Boundary(current: Date, k: nat): Date {
    var months := Months(current) + k;
    Date(months / 12, months % 12 + 1,
         if AtMonthEnd(current) then LastDay(months) else Min(current.day, LastDay(months)))
  }

  /** No drift: boundaries of ordinary anchors are whole months from the anchor itself, and those of month ends are
      month ends. */
  lemma BoundariesDoNotDrift(current: Date, k: nat)
    requires Valid(current) && Months(current) + k <= 12 * LAST_YEAR + 11
    ensures Valid(Boundary(current, k)) && Months(Boundary(current, k)) == Months(current) + k
    ensures !AtMonthEnd(current) ==> AddMonths(current, k) == Some(Boundary(current, k))
    ensures AtMonthEnd(current) ==> AtMonthEnd(Boundary(current, k))
    ensures k == 0 ==> Boundary(current, k) == current
  {
    AddMonthsIsExact(current, k);
    var b := Boundary(current, k);
    BoundaryMonth(current, k);
    if !AtMonthEnd(current) { SameDate(b, AddMonths(current, k).value); }
    if k == 0 { SameDate(b, current); }
  }

  lemma BoundaryMonth(current: Date, k: nat)
    requires Valid(current)
    ensures Months(Boundary(current, k)) == Months(current) + k && 1 <= Boundary(current, k).month <= 12
    ensures LastDay(Months(current) + k) == DaysIn(Boundary(current, k).year, Boundary(current, k).month)
  {
    var months := Months(current) + k;
    assert months == 12 * (months / 12) + months % 12;
  }

  lemma BoundariesRise(current: Date, j: nat, k: nat)
    requires Valid(current) && j < k
    ensures Earlier(Boundary(current, j), Boundary(current, k))
  {
    BoundaryMonth(current, j);
    BoundaryMonth(current, k);
  }

  // One turn of the loop: the next month, from December into the next year.
  function Next(end: Date, anchor: Date): Date {
    var year := if end.month == 12 then end.year + 1 else end.year;
    var month := end.month % 12 + 1;
    Date(year, month, if AtMonthEnd(anchor) then DaysIn(year, month) else Min(anchor.day, DaysIn(year, month)))
  }

  lemma NextBoundary(current: Date, k: nat)
    requires Valid(current)
    ensures Next(Boundary(current, k), current) == Boundary(current, k + 1)
  {
    BoundaryMonth(current, k);
    BoundaryMonth(current, k + 1);
    var b := Boundary(current, k);
    MonthAfter(b, if b.month == 12 then b.year + 1 else b.year, b.month % 12 + 1);
    SameMonth(Next(b, current), Boundary(current, k + 1));
  }

  lemma MonthAfter(d: Date, year: int, month: int)
    requires 1 <= d.month <= 12 && year == (if d.month == 12 then d.year + 1 else d.year) && month == d.month % 12 + 1
    ensures 1 <= month <= 12 && 12 * year + month - 1 == Months(d) + 1
  {
  }

  lemma SameMonth(a: Date, b: Date)
    requires 1 <= a.month <= 12 && 1 <= b.month <= 12 && Months(a) == Months(b)
    ensures a.year == b.year && a.month == b.month
  {
  }

  /** `r` is the first boundary on or after the requested day. */
  ghost predicate FirstBoundary(current: Date, requested: Date, r: Date) {
    exists k: nat :: r == Boundary(current, k) && IsFirst(current, requested, k)
  }

  ghost predicate IsFirst(current: Date, requested: Date, k: nat) {
    !Earlier(Boundary(current, k), requested) && forall j: nat :: j < k ==> Earlier(Boundary(current, j), requested)
  }

  // The last boundary there is.
  function FinalBoundary(current: Date): Date
    requires Valid(current)
  {
    Boundary(current, 12 * LAST_YEAR + 11 - Months(current))
  }

  /** The effective day of a cancellation; None where the loop runs out of dates. `termEnd` is the end of the initial
      term of contracts that do not renew. */
  method CancellationEffective(current: Date, requested: Option<Date>, renews: bool, termEnd: Option<Date>)
    returns (r: Option<Date>)
    requires Valid(current) && (requested.Some? ==> Valid(requested.value))
    ensures requested.None? || !Earlier(current, requested.value) ==> r == Some(current)
    ensures requested.Some? && Earlier(current, requested.value) && !renews ==>
              r == Some(if termEnd.Some? then termEnd.value else current)
    ensures requested.Some? && Earlier(current, requested.value) && renews ==>
              && (r.None? <==> Earlier(FinalBoundary(current), requested.value))
              && (r.Some? ==> Valid(r.value) && FirstBoundary(current, requested.value, r.value))
  {
    if requested.None? || !Earlier(current, requested.value) { return Some(current); }
    if !renews { return Some(if termEnd.Some? then termEnd.value else current); }
    r := NextPeriodEnd(current, requested.value);
  }

  // The loop stands at the k-th boundary, and all before it were too early.
  ghost predicate StandsAt(current: Date, requested: Date, k: nat, end: Date) {
    && Months(current) + k <= 12 * LAST_YEAR + 11
    && end == Boundary(current, k) && Valid(end) && Months(end) == Months(current) + k
    && forall j: nat :: j < k ==> Earlier(Boundary(current, j), requested)
  }

  lemma StandsAtTheNext(current: Date, requested: Date, k: nat, end: Date)
    requires Valid(current) && StandsAt(current, requested, k, end) && Earlier(end, requested)
    ensures Next(end, current).year > LAST_YEAR ==> Earlier(FinalBoundary(current), requested)
    ensures Next(end, current).year <= LAST_YEAR ==> StandsAt(current, requested, k + 1, Next(end, current))
  {
    NextBoundary(current, k);
    BoundaryMonth(current, k + 1);
    if Next(end, current).year <= LAST_YEAR { BoundariesDoNotDrift(current, k + 1); }
  }

  lemma StandsAtTheFirst(current: Date, requested: Date, k: nat, end: Date)
    requires Valid(current) && StandsAt(current, requested, k, end) && !Earlier(end, requested)
    ensures FirstBoundary(current, requested, end) && !Earlier(FinalBoundary(current), requested)
  {
    var final := 12 * LAST_YEAR + 11 - Months(current);
    if k < final { BoundariesRise(current, k, final); }
    assert IsFirst(current, requested, k);
  }

  // The loop: month by month from the end of the current period.
  method NextPeriodEnd(current: Date, requested: Date) returns (r: Option<Date>)
    requires Valid(current) && Valid(requested)
    ensures r.None? <==> Earlier(FinalBoundary(current), requested)
    ensures r.Some? ==> Valid(r.value) && FirstBoundary(current, requested, r.value)
  {
    var end, anchorDay, monthEnd := current, current.day, AtMonthEnd(current);
    ghost var k: nat := 0;
    BoundariesDoNotDrift(current, 0);
    while Earlier(end, requested)
      invariant StandsAt(current, requested, k, end)
      decreases Months(requested) + 1 - Months(end)
    {
      StandsAtTheNext(current, requested, k, end);
      var year := if end.month == 12 then end.year + 1 else end.year;
      var month := end.month % 12 + 1;
      var last := DaysIn(year, month);
      if year > LAST_YEAR { return None; }
      end := Date(year, month, if monthEnd then last else Min(anchorDay, last));
      k := k + 1;
    }
    StandsAtTheFirst(current, requested, k, end);
    return Some(end);
  }

  // Boundaries are in their months, so they compare with the requested day as the months do.
  lemma BoundaryAgainst(current: Date, requested: Date, k: nat)
    requires Valid(current) && Valid(requested)
    ensures Months(current) + k < Months(requested) ==> Earlier(Boundary(current, k), requested)
    ensures Months(current) + k > Months(requested) ==> !Earlier(Boundary(current, k), requested)
  {
    BoundaryMonth(current, k);
  }

  lemma FirstIsNear(current: Date, requested: Date, k: nat)
    requires Valid(current) && Valid(requested) && Earlier(current, requested) && IsFirst(current, requested, k)
    ensures Months(requested) <= Months(current) + k <= Months(requested) + 1
    ensures Months(current) + k == Months(requested) + 1
            <==> Earlier(Boundary(current, Months(requested) - Months(current)), requested)
  {
    var same: nat := Months(requested) - Months(current);
    BoundaryAgainst(current, requested, k);
    BoundaryAgainst(current, requested, same + 1);
  }

  /** The first boundary is unique, and lies in the requested day's month or in the one after it. */
  lemma FirstBoundaryIsNear(current: Date, requested: Date, r: Date, other: Date)
    requires Valid(current) && Valid(requested) && Earlier(current, requested) && FirstBoundary(current, requested, r)
    ensures Months(requested) <= Months(r) <= Months(requested) + 1
    ensures Months(r) == Months(requested) + 1
            <==> Earlier(Boundary(current, Months(requested) - Months(current)), requested)
    ensures FirstBoundary(current, requested, other) ==> other == r
  {
    var k: nat :| r == Boundary(current, k) && IsFirst(current, requested, k);
    BoundaryMonth(current, k);
    FirstIsNear(current, requested, k);
    if FirstBoundary(current, requested, other) {
      var m: nat :| other == Boundary(current, m) && IsFirst(current, requested, m);
      assert !(m < k) && !(k < m);
    }
  }
}
