/** Civil time of the phantom clock in runner/src/cdi_nvram.c, against the Gregorian calendar. */
module Calendar {

  datatype Time = Time(year: int, month: nat, date: nat, weekday: nat,
                       hour: nat, minute: nat, second: nat, hundredth: nat)

  predicate Leap(year: int) { (year % 4 == 0 && year % 100 != 0) || year % 400 == 0 }

  function DaysInMonth(year: int, month: nat): nat {
    match month
    case 2 => if Leap(year) then 29 else 28
    case 4 => 30
    case 6 => 30
    case 9 => 30
    case 11 => 30
    case _ => 31
  }

  /** A date that exists and a time of day, in any year from 1970 on. */
  predicate Civil(t: Time) {
    && t.year >= 1970 && 1 <= t.month <= 12 && 1 <= t.date <= DaysInMonth(t.year, t.month)
    && 1 <= t.weekday <= 7 && t.hour <= 23 && t.minute <= 59 && t.second <= 59 && t.hundredth <= 99
  }

  /** valid_time. */
  predicate Seedable(t: Time) { Civil(t) && t.year <= 2069 }

  // ----- the reference: days since 1 January of year 1 -----

  function DaysBeforeYear(year: int): int {
    var y := year - 1;
    365 * y + y / 4 - y / 100 + y / 400
  }

  function DaysBeforeMonth(year: int, month: nat): int {
    (match month
     case 1 => 0 case 2 => 31 case 3 => 59 case 4 => 90 case 5 => 120 case 6 => 151
     case 7 => 181 case 8 => 212 case 9 => 243 case 10 => 273 case 11 => 304 case _ => 334)
    + (if month > 2 && Leap(year) then 1 else 0)
  }

  function DayNumber(t: Time): int {
    DaysBeforeYear(t.year) + DaysBeforeMonth(t.year, t.month) + t.date - 1
  }

  function SecondNumber(t: Time): int {
    ((DayNumber(t) * 24 + t.hour) * 60 + t.minute) * 60 + t.second
  }

  /** Monday is 1; the first day of year 1 was one. */
  function WeekdayOf(day: int): nat { day % 7 + 1 }

  // ----- the clock's own arithmetic -----

  method AdvanceOneSecond(t: Time) returns (r: Time)
    ensures r == NextSecond(t)
  {
    r := t.(second := t.second + 1);
    if r.second < 60 { return; }
    r := r.(second := 0, minute := r.minute + 1);
    if r.minute < 60 { return; }
    r := r.(minute := 0, hour := r.hour + 1);
    if r.hour < 24 { return; }
    r := r.(hour := 0, weekday := if r.weekday == 7 then 1 else r.weekday + 1, date := r.date + 1);
    if r.date <= DaysInMonth(r.year, r.month) { return; }
    r := r.(date := 1, month := r.month + 1);
    if r.month <= 12 { return; }
    r := r.(month := 1, year := r.year + 1);
  }

  function NextDay(t: Time): Time {
    var r := t.(weekday := if t.weekday == 7 then 1 else t.weekday + 1);
    if t.date + 1 <= DaysInMonth(t.year, t.month) then r.(date := t.date + 1)
    else if t.month + 1 <= 12 then r.(date := 1, month := t.month + 1)
    else r.(date := 1, month := 1, year := t.year + 1)
  }

  function NextSecond(t: Time): Time {
    if t.second + 1 < 60 then t.(second := t.second + 1)
    else if t.minute + 1 < 60 then t.(second := 0, minute := t.minute + 1)
    else if t.hour + 1 < 24 then t.(second := 0, minute := 0, hour := t.hour + 1)
    else NextDay(t.(second := 0, minute := 0, hour := 0))
  }

  lemma YearLength(year: int)
    ensures DaysBeforeYear(year + 1) == DaysBeforeYear(year) + 365 + (if Leap(year) then 1 else 0)
  {
    var y := year;
    assert y / 4 == (y - 1) / 4 + (if y % 4 == 0 then 1 else 0) by { Quotient(y, 4); }
    assert y / 100 == (y - 1) / 100 + (if y % 100 == 0 then 1 else 0) by { Quotient(y, 100); }
    assert y / 400 == (y - 1) / 400 + (if y % 400 == 0 then 1 else 0) by { Quotient(y, 400); }
    Centuries(y);
  }

  lemma Centuries(y: int)
    ensures y % 100 == 0 ==> y % 4 == 0
    ensures y % 400 == 0 ==> y % 100 == 0
  {
    if y % 100 == 0 { Multiple(4, 25 * (y / 100)); assert y == 4 * (25 * (y / 100)); }
    if y % 400 == 0 { Multiple(100, 4 * (y / 400)); assert y == 100 * (4 * (y / 400)); }
  }

  lemma Multiple(k: int, q: int)
    requires k in {4, 100}
    ensures (k * q) % k == 0
  {}

  lemma Quotient(y: int, k: int)
    requires k in {4, 100, 400}
    ensures y / k == (y - 1) / k + (if y % k == 0 then 1 else 0)
  {}

  lemma MonthLength(year: int, month: nat)
    requires 1 <= month <= 12
    ensures month < 12 ==> DaysBeforeMonth(year, month + 1) == DaysBeforeMonth(year, month) + DaysInMonth(year, month)
    ensures month == 12 ==> DaysBeforeMonth(year, 12) + 31 == 365 + (if Leap(year) then 1 else 0)
  {}

  /** Dropping the century loses no date: a leap year stays one. */
  lemma CenturiesAgree(year: int, month: nat)
    requires year >= 1970 && 1 <= month <= 12
    ensures DaysInMonth(year, month) <= DaysInMonth(1970 + (year - 1970) % 100, month)
  {
    hide Leap;
    var q, u := (year - 1970) / 100, 1970 + (year - 1970) % 100;
    LeapAgree(u, 25 * q);
  }

  lemma LeapAgree(u: int, q: nat)
    requires 1970 <= u <= 2069
    ensures Leap(u + 4 * q) ==> Leap(u)
  {
    hide Leap;
    LeapIsFourth(u + 4 * q);
    Remainder(u, q);
    FourthIsLeap(u);
  }

  lemma LeapIsFourth(year: int)
    ensures Leap(year) ==> year % 4 == 0
  {
    Centuries(year);
  }

  /** Between 1970 and 2069 every fourth year is a leap year, 2000 included. */
  lemma FourthIsLeap(year: int)
    requires 1970 <= year <= 2069
    ensures year % 4 == 0 ==> Leap(year)
  {}

  lemma Remainder(u: int, q: nat)
    ensures (u + 4 * q) % 4 == u % 4
  {}

  /** Whole centuries are whole days, and more than a month can hide. */
  lemma CenturyDays(t: Time, year: int)
    requires year < t.year && (t.year - year) % 100 == 0
    ensures DayNumber(t.(year := year)) < DayNumber(t)
  {
    hide DaysBeforeMonth;
    var q := (t.year - year) / 100;
    var y := year - 1;
    assert t.year - 1 == y + 100 * q && q >= 1;
    assert (y + 100 * q) / 4 == y / 4 + 25 * q;
    assert (y + 100 * q) / 100 == y / 100 + q;
    assert (y + 100 * q) / 400 >= y / 400;
    MonthsAgree(year, t.year, t.month);
  }

  lemma MonthsAgree(a: int, b: int, month: nat)
    ensures DaysBeforeMonth(a, month) <= DaysBeforeMonth(b, month) + 1
  {}

  /** The next day is the next day of the calendar, on the next weekday. */
  lemma NextDayCounts(t: Time)
    requires Civil(t)
    ensures Civil(NextDay(t)) && DayNumber(NextDay(t)) == DayNumber(t) + 1
    ensures t.weekday == WeekdayOf(DayNumber(t)) ==> NextDay(t).weekday == WeekdayOf(DayNumber(t) + 1)
  {
    hide DaysBeforeYear, DaysBeforeMonth, WeekdayOf, Leap;
    YearLength(t.year);
    MonthLength(t.year, t.month);
    WeekdayNext(DayNumber(t));
    YearStarts(t.year + 1);
  }

  lemma YearStarts(year: int)
    ensures DaysBeforeMonth(year, 1) == 0
  {}

  lemma WeekdayNext(day: int)
    ensures WeekdayOf(day + 1) == if WeekdayOf(day) == 7 then 1 else WeekdayOf(day) + 1
  {}

  /** Every second advance adds one to the Gregorian second number, never leaves the
      calendar, and keeps a right weekday right. */
  lemma NextSecondCounts(t: Time)
    requires Civil(t)
    ensures Civil(NextSecond(t)) && SecondNumber(NextSecond(t)) == SecondNumber(t) + 1
    ensures t.weekday == WeekdayOf(DayNumber(t)) ==> NextSecond(t).weekday == WeekdayOf(DayNumber(NextSecond(t)))
    ensures NextSecond(t).hundredth == t.hundredth
  {
    hide DaysBeforeYear, DaysBeforeMonth, Leap, WeekdayOf;
    NextDayCounts(t.(second := 0, minute := 0, hour := 0));
  }

  /** The clock starts on 1 January 1989, a Sunday. */
  lemma ResetDate()
    ensures WeekdayOf(DayNumber(Time(1989, 1, 1, 7, 0, 0, 0, 0))) == 7
  {}
}
