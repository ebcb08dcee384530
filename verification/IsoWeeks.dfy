/** ISO 8601 week arithmetic on the proleptic Gregorian calendar. Days are numbered from Monday, 1 January of year 1. */
module IsoWeeks {
  import opened Tables

  type Day = int

  predicate Leap(y: int) {
    y % 4 == 0 && (y % 100 != 0 || y % 400 == 0)
  }

  function YearDays(y: int): (n: int)
    ensures 365 <= n <= 366
  {
    if Leap(y) then 366 else 365
  }

  /** The day number of 1 January. */
  function NewYear(y: int): Day
    decreases if y >= 1 then y - 1 else 1 - y
  {
    if y == 1 then 0
    else if y > 1 then NewYear(y - 1) + YearDays(y - 1)
    else NewYear(y + 1) - YearDays(y)
  }

  lemma YearLength(y: int)
    ensures NewYear(y + 1) == NewYear(y) + YearDays(y)
  {
  }

  /** The usual count of the days before a year. */
  lemma {:induction false} NewYearIs(y: int)
    ensures NewYear(y) == 365 * (y - 1) + (y - 1) / 4 - (y - 1) / 100 + (y - 1) / 400
    decreases if y >= 1 then y - 1 else 1 - y
  {
    if y > 1 {
      NewYearIs(y - 1);
      LeapCount(y - 1);
    } else if y < 1 {
      NewYearIs(y + 1);
      LeapCount(y);
    }
  }

  /** A year adds a leap day iff it divides by 4, and not by 100 or else by 400. */
  lemma LeapCount(y: int)
    ensures YearDays(y) - 365
      == y / 4 - (y - 1) / 4 - (y / 100 - (y - 1) / 100) + (y / 400 - (y - 1) / 400)
  {
    assert y / 4 - (y - 1) / 4 == if y % 4 == 0 then 1 else 0;
    assert y / 100 - (y - 1) / 100 == if y % 100 == 0 then 1 else 0;
    assert y / 400 - (y - 1) / 400 == if y % 400 == 0 then 1 else 0;
  }

  function YearFrom(d: Day, y: int): (r: int)
    requires NewYear(y) <= d
    ensures NewYear(r) <= d < NewYear(r + 1)
    decreases d - NewYear(y)
  {
    YearLength(y);
    if d < NewYear(y + 1) then y else YearFrom(d, y + 1)
  }

  /** The calendar year a day lies in. */
  function YearOf(d: Day): (y: int)
    ensures NewYear(y) <= d < NewYear(y + 1)
  {
    var first := if d >= 0 then 1 else d;
    YearsAscend(first, 1);
    YearFrom(d, first)
  }

  lemma {:induction false} YearsAscend(a: int, b: int)
    requires a <= b
    ensures NewYear(a) + 365 * (b - a) <= NewYear(b)
    decreases b - a
  {
    if a < b {
      YearLength(b - 1);
      YearsAscend(a, b - 1);
    }
  }

  lemma YearUnique(d: Day, y: int)
    requires NewYear(y) <= d < NewYear(y + 1)
    ensures YearOf(d) == y
  {
    var z := YearOf(d);
    if z < y { YearsAscend(z + 1, y); }
    if y < z { YearsAscend(y + 1, z); }
  }

  // --- weeks -------------------------------------------------------------------------------

  /** date_trunc('week', ...) and startOf('week'). */
  function MondayOf(d: Day): Day {
    d - d % 7
  }

  /** A week belongs to the year of its Thursday and is numbered by it: sections 2.2.10 and 4.1.4 of ISO 8601:2004. */
  function ThursdayOf(d: Day): Day {
    MondayOf(d) + 3
  }

  function IsoYearOf(d: Day): int {
    YearOf(ThursdayOf(d))
  }

  function IsoWeekOf(d: Day): int {
    (ThursdayOf(d) - NewYear(IsoYearOf(d))) / 7 + 1
  }

  function WeekOfDay(d: Day): Week {
    Week(IsoYearOf(d), IsoWeekOf(d))
  }

  /** The other expression in the code: the Monday of 4 January, and `isoWeek - 1` weeks on. */
  function WeekStart(w: Week): Day {
    MondayOf(NewYear(w.isoYear) + 3) + 7 * (w.isoWeek - 1)
  }

  function FirstThursdayOf(y: int): Day {
    MondayOf(NewYear(y) + 3) + 3
  }

  lemma FirstThursdayFrom(n: Day)
    ensures var t := MondayOf(n + 3) + 3;
      && n <= t < n + 7 && t % 7 == 3
      && (t == n <==> n % 7 == 3) && (t == n + 1 <==> n % 7 == 2)
  {
  }

  /** 4 January is always in the week of the year's first Thursday. */
  lemma FirstThursday(y: int)
    ensures var t, n := FirstThursdayOf(y), NewYear(y);
      && n <= t < n + 7 && t % 7 == 3
      && (t == n <==> n % 7 == 3) && (t == n + 1 <==> n % 7 == 2)
  {
    FirstThursdayFrom(NewYear(y));
  }

  lemma ThursdayIsThursday(d: Day)
    ensures ThursdayOf(d) % 7 == 3 && d - 3 <= ThursdayOf(d) <= d + 3
  {
  }

  lemma ThursdayNumber(t: int, first: int, base: int)
    requires t % 7 == 3 && first % 7 == 3 && base <= first < base + 7
    ensures t == first + 7 * ((t - base) / 7)
  {
  }

  lemma NumberOfThursday(first: int, base: int, k: int)
    requires base <= first < base + 7
    ensures (first + 7 * (k - 1) - base) / 7 + 1 == k
  {
  }

  /** For every date, the two expressions name the same Monday. */
  lemma WeekStartRoundTrip(d: Day)
    ensures WeekStart(WeekOfDay(d)) == MondayOf(d)
  {
    var y := IsoYearOf(d);
    FirstThursday(y);
    ThursdayIsThursday(d);
    ThursdayNumber(ThursdayOf(d), FirstThursdayOf(y), NewYear(y));
  }

  /** Week numbers are 1..53, what the CHECK on iso_week admits. */
  lemma WeekNumbers(d: Day)
    ensures OnCalendar(WeekOfDay(d))
  {
    YearLength(IsoYearOf(d));
  }

  /** Two dates carry the same (year, week) exactly when they share their Monday. */
  lemma SameWeekIff(a: Day, b: Day)
    ensures WeekOfDay(a) == WeekOfDay(b) <==> MondayOf(a) == MondayOf(b)
  {
    WeekStartRoundTrip(a);
    WeekStartRoundTrip(b);
  }

  /** A year has 53 weeks iff it starts on a Thursday, or is a leap year that starts on a Wednesday. */
  function WeeksIn(y: int): (n: int)
    ensures 52 <= n <= 53
  {
    if NewYear(y) % 7 == 3 || (Leap(y) && NewYear(y) % 7 == 2) then 53 else 52
  }

  /** The k-th Thursday lies in its year iff the year has that many weeks. */
  lemma ThursdayInYear(y: int, k: int)
    requires 1 <= k <= 54
    ensures FirstThursdayOf(y) + 7 * (k - 1) < NewYear(y + 1) <==> k <= WeeksIn(y)
  {
    FirstThursday(y);
    YearLength(y);
    var n, t := NewYear(y), FirstThursdayOf(y);
    if k <= 52 {
      assert t + 7 * (k - 1) <= n + 6 + 357;
    } else if k == 53 {
      assert NewYear(y + 1) == n + YearDays(y);
    } else {
      assert t + 7 * (k - 1) >= n + 371;
    }
  }

  lemma WeeksLater(m: Day, j: int)
    requires m % 7 == 0
    ensures MondayOf(m + 7 * j) == m + 7 * j
  {
  }

  lemma WeekStartThursday(w: Week)
    ensures MondayOf(WeekStart(w)) == WeekStart(w)
    ensures ThursdayOf(WeekStart(w)) == FirstThursdayOf(w.isoYear) + 7 * (w.isoWeek - 1)
  {
    WeeksLater(MondayOf(NewYear(w.isoYear) + 3), w.isoWeek - 1);
  }

  /** A (year, week) pair within the CHECK is the week of its own start exactly when the year has that many weeks. */
  lemma WeekExistsIff(w: Week)
    requires OnCalendar(w)
    ensures WeekOfDay(WeekStart(w)) == w <==> w.isoWeek <= WeeksIn(w.isoYear)
  {
    var t, first, base := ThursdayOf(WeekStart(w)), FirstThursdayOf(w.isoYear), NewYear(w.isoYear);
    WeekStartThursday(w);
    FirstThursday(w.isoYear);
    ThursdayInYear(w.isoYear, w.isoWeek);
    assert t < NewYear(w.isoYear + 1) <==> w.isoWeek <= WeeksIn(w.isoYear);
    if t < NewYear(w.isoYear + 1) {
      YearUnique(t, w.isoYear);
      NumberOfThursday(first, base, w.isoWeek);
    }
  }

  lemma NoSuchWeek(y: int, d: Day)
    requires WeeksIn(y) == 52
    ensures WeekOfDay(d) != Week(y, 53)
  {
    WeekStartRoundTrip(d);
    WeekExistsIff(Week(y, 53));
    MondayIdempotent(d);
    SameWeekIff(d, MondayOf(d));
  }

  /** The week a token names beyond its year's last is the next year's first: two period keys with one
      week_start_date, of which the former is no instant's week. */
  lemma PhantomWeek(y: int)
    requires WeeksIn(y) == 52
    ensures WeekStart(Week(y, 53)) == WeekStart(Week(y + 1, 1))
    ensures forall d :: WeekOfDay(d) != Week(y, 53)
  {
    PhantomStart(y);
    forall d ensures WeekOfDay(d) != Week(y, 53) { NoSuchWeek(y, d); }
  }

  lemma PhantomStart(y: int)
    requires WeeksIn(y) == 52
    ensures WeekStart(Week(y, 53)) == WeekStart(Week(y + 1, 1))
  {
    FirstThursday(y);
    FirstThursday(y + 1);
    ThursdayInYear(y, 52);
    ThursdayInYear(y, 53);
    NextFirstThursday(FirstThursdayOf(y), FirstThursdayOf(y + 1), NewYear(y + 1));
  }

  lemma NextFirstThursday(first: int, next: int, base: int)
    requires first % 7 == next % 7 && base <= first + 364 < base + 7 && base <= next < base + 7
    ensures first + 364 == next
  {
    WeeksLaterMod(first);
    SevenApart(first + 364, next, base);
  }

  lemma WeeksLaterMod(t: int)
    ensures (t + 364) % 7 == t % 7
  {
  }

  lemma SevenApart(a: int, b: int, base: int)
    requires a % 7 == b % 7 && base <= a < base + 7 && base <= b < base + 7
    ensures a == b
  {
  }

  lemma MondayIdempotent(d: Day)
    ensures MondayOf(MondayOf(d)) == MondayOf(d)
  {
  }

  /** The ordinal-date computation of a week that calendar libraries use. */
  function OrdinalWeek(d: Day): Week {
    var y := YearOf(d);
    var n := (d - NewYear(y) + 1 - (d % 7 + 1) + 10) / 7;
    if n < 1 then Week(y - 1, WeeksIn(y - 1))
    else if n > WeeksIn(y) then Week(y + 1, 1)
    else Week(y, n)
  }

  /** A Thursday of year `y` with no later one in it carries the last week number. */
  lemma LastThursday(y: int, t: Day)
    requires t % 7 == 3 && NewYear(y) <= t < NewYear(y + 1) <= t + 7
    ensures (t - NewYear(y)) / 7 + 1 == WeeksIn(y)
  {
    FirstThursday(y);
    YearLength(y);
    var first, k := FirstThursdayOf(y), (t - NewYear(y)) / 7 + 1;
    ThursdayNumber(t, first, NewYear(y));
    ThursdayInYear(y, k);
    ThursdayInYear(y, k + 1);
  }

  lemma OneWeekOn(x: int)
    ensures (x + 7) / 7 == x / 7 + 1
  {
  }

  /** It agrees with the Thursday rule on every date. */
  lemma OrdinalWeekAgrees(d: Day)
    ensures OrdinalWeek(d) == WeekOfDay(d)
  {
    var y, t := YearOf(d), ThursdayOf(d);
    var n := (d - NewYear(y) + 1 - (d % 7 + 1) + 10) / 7;
    OneWeekOn(t - NewYear(y));
    assert n == (t - NewYear(y)) / 7 + 1;
    ThursdayIsThursday(d);
    YearLength(y);
    YearLength(y - 1);
    YearLength(y + 1);
    FirstThursday(y);
    ThursdayNumber(t, FirstThursdayOf(y), NewYear(y));
    if t < NewYear(y) {
      YearUnique(t, y - 1);
      LastThursday(y - 1, t);
    } else {
      ThursdayInYear(y, n);
      if t < NewYear(y + 1) { YearUnique(t, y); } else { YearUnique(t, y + 1); }
    }
  }

  // --- tokens ------------------------------------------------------------------------------

  function Digit(n: nat): char
    requires n < 10
  {
    ['0', '1', '2', '3', '4', '5', '6', '7', '8', '9'][n]
  }

  predicate IsDigit(c: char) {
    '0' <= c <= '9'
  }

  function DigitValue(c: char): nat
    requires IsDigit(c)
  {
    (c - '0') as nat
  }

  lemma DigitRoundTrip(n: nat)
    requires n < 10
    ensures IsDigit(Digit(n)) && DigitValue(Digit(n)) == n
  {
  }

  function Decimal(n: nat): string {
    if n < 10 then [Digit(n)] else Decimal(n / 10) + [Digit(n % 10)]
  }

  function IntString(n: int): string {
    if n < 0 then "-" + Decimal(-n) else Decimal(n)
  }

  function PadTwo(n: nat): string {
    if n < 10 then "0" + Decimal(n) else Decimal(n)
  }

  /** isoWeekToken. */
  function PrintToken(w: Week): string
    requires w.isoWeek >= 0
  {
    IntString(w.isoYear) + "-W" + PadTwo(w.isoWeek)
  }

  predicate MatchesToken(s: string) {
    && |s| == 8 && s[4] == '-' && s[5] == 'W'
    && IsDigit(s[0]) && IsDigit(s[1]) && IsDigit(s[2]) && IsDigit(s[3]) && IsDigit(s[6]) && IsDigit(s[7])
  }

  /** The endpoints' reading of a token: four digits, "-W", two digits. */
  function ParseToken(s: string): Option<Week> {
    if !MatchesToken(s) then None
    else Some(Week(1000 * DigitValue(s[0]) + 100 * DigitValue(s[1]) + 10 * DigitValue(s[2]) + DigitValue(s[3]),
                   10 * DigitValue(s[6]) + DigitValue(s[7])))
  }

  /** What a token is read as, digit by digit. */
  lemma ParseIs(s: string)
    ensures ParseToken(s).Some? <==>
      |s| == 8 && s[4..6] == "-W" && forall i :: 0 <= i < 8 && i != 4 && i != 5 ==> '0' <= s[i] <= '9'
    ensures ParseToken(s).Some? ==>
      && ParseToken(s).value.isoYear
           == 1000 * (s[0] as int - 48) + 100 * (s[1] as int - 48) + 10 * (s[2] as int - 48) + (s[3] as int - 48)
      && ParseToken(s).value.isoWeek == 10 * (s[6] as int - 48) + (s[7] as int - 48)
  {
  }

  lemma DecimalLength(n: nat)
    ensures |Decimal(n)| == 4 <==> 1000 <= n <= 9999
    ensures |Decimal(n)| == 3 <==> 100 <= n <= 999
    ensures |Decimal(n)| == 2 <==> 10 <= n <= 99
    ensures |Decimal(n)| == 1 <==> n <= 9
    ensures |Decimal(n)| >= 1
  {
    if n >= 10 { DecimalLength(n / 10); }
  }

  lemma FourDigits(n: nat)
    requires 1000 <= n <= 9999
    ensures Decimal(n) == [Digit(n / 1000), Digit(n / 100 % 10), Digit(n / 10 % 10), Digit(n % 10)]
  {
    assert Decimal(n / 10) == Decimal(n / 10 / 10) + [Digit(n / 10 % 10)];
    assert n / 10 / 10 == n / 100 && n / 100 / 10 == n / 1000;
    assert Decimal(n / 100) == Decimal(n / 100 / 10) + [Digit(n / 100 % 10)];
  }

  lemma TwoDigits(n: nat)
    requires n <= 99
    ensures PadTwo(n) == [Digit(n / 10), Digit(n % 10)]
  {
    if n >= 10 { assert Decimal(n / 10) == [Digit(n / 10)]; }
  }

  lemma PrintedLength(w: Week)
    requires 0 <= w.isoWeek <= 99
    ensures |PrintToken(w)| == |IntString(w.isoYear)| + 4
  {
    TwoDigits(w.isoWeek);
  }

  lemma FourDigitYear(y: nat, k: nat)
    requires 1000 <= y <= 9999 && k <= 99
    ensures ParseToken(PrintToken(Week(y, k))) == Some(Week(y, k))
  {
    var s := PrintToken(Week(y, k));
    var a, b, c, e := y / 1000, y / 100 % 10, y / 10 % 10, y % 10;
    FourDigits(y);
    TwoDigits(k);
    assert s == [Digit(a), Digit(b), Digit(c), Digit(e), '-', 'W', Digit(k / 10), Digit(k % 10)];
    DigitRoundTrip(a); DigitRoundTrip(b); DigitRoundTrip(c); DigitRoundTrip(e);
    DigitRoundTrip(k / 10); DigitRoundTrip(k % 10);
    DigitsAddUp(y);
  }

  lemma DigitsAddUp(y: nat)
    ensures 1000 * (y / 1000) + 100 * (y / 100 % 10) + 10 * (y / 10 % 10) + y % 10 == y
  {
    assert y / 10 / 10 == y / 100 && y / 100 / 10 == y / 1000;
  }

  /** A week's printed token reads back as that week exactly for four-digit years. */
  lemma TokenRoundTripIff(w: Week)
    requires OnCalendar(w)
    ensures ParseToken(PrintToken(w)) == Some(w) <==> 1000 <= w.isoYear <= 9999
  {
    if 1000 <= w.isoYear <= 9999 {
      FourDigitYear(w.isoYear, w.isoWeek);
    } else {
      PrintedLength(w);
      if w.isoYear < 0 { assert PrintToken(w)[0] == '-'; } else { DecimalLength(w.isoYear); }
    }
  }

  // --- instants ----------------------------------------------------------------------------

  /** The local date of an instant, `offset` east of UTC. */
  function LocalDay(offset: int, t: Instant): Day {
    (t + offset) / DAY
  }

  /** A time zone: the local date of each instant, and the instant at which each local date begins. */
  datatype Zone = Zone(dateOf: Instant -> Day, startOf: Day -> Instant)

  /** The local calendar turns each date once and never back; the clock may be put forward or back within a date. */
  ghost predicate Turns(z: Zone) {
    forall t, d :: z.startOf(d) <= t <==> d <= z.dateOf(t)
  }

  function FixedOffset(offset: int): Zone {
    Zone(t => LocalDay(offset, t), d => d * DAY - offset)
  }

  lemma FixedOffsetTurns(offset: int)
    ensures Turns(FixedOffset(offset))
  {
    forall t, d ensures FixedOffset(offset).startOf(d) <= t <==> d <= FixedOffset(offset).dateOf(t) {
      LocalFrom(t + offset, d);
    }
  }

  /** The local date is the number of whole days of the local clock. */
  lemma LocalDayIs(offset: int, t: Instant)
    ensures LocalDay(offset, t) * 86_400_000_000 <= t + offset < (LocalDay(offset, t) + 1) * 86_400_000_000
  {
  }

  lemma LocalFrom(x: int, d: int)
    ensures d * DAY <= x <==> d <= x / DAY
  {
  }

  lemma LocalRange(x: int, a: int, b: int)
    ensures a * DAY <= x < b * DAY <==> a <= x / DAY < b
  {
  }

  /** isoWeekRange: the first and last local date, and the half-open instant range. */
  datatype WeekBounds = WeekBounds(startIso: Instant, endIso: Instant, from: Day, to: Day)

  function IsoWeekRange(z: Zone, d: Day): WeekBounds {
    var monday := MondayOf(d);
    WeekBounds(z.startOf(monday), z.startOf(monday + 7), monday, monday + 6)
  }

  /** In every zone, the client's date bounds hold exactly what the server files under the same token, and so do its
      instant bounds if the zone's calendar turns each date once. */
  lemma BoundsAreTheWeek(z: Zone, d: Day, t: Instant)
    ensures var b := IsoWeekRange(z, d);
      && (b.from <= z.dateOf(t) <= b.to <==> WeekOfDay(z.dateOf(t)) == WeekOfDay(d))
      && (Turns(z) ==> (b.startIso <= t < b.endIso <==> WeekOfDay(z.dateOf(t)) == WeekOfDay(d)))
  {
    SameWeekIff(z.dateOf(t), d);
    MondayRange(z.dateOf(t), d);
  }

  lemma MondayRange(x: Day, d: Day)
    ensures MondayOf(d) <= x < MondayOf(d) + 7 <==> MondayOf(x) == MondayOf(d)
  {
  }

  /** The week of an instant in each user's zone: one of the week functions the timesheet protocol is proved for. */
  function CalendarWeeks(zoneOf: UserId -> Zone): WeekOf {
    (u: UserId, t: Instant) => CalendarWeek(zoneOf(u), t)
  }

  function CalendarWeek(z: Zone, t: Instant): IsoWeek {
    WeekNumbers(z.dateOf(t));
    WeekOfDay(z.dateOf(t))
  }

  /** Under it, in every zone, an entry is filed in an existing week exactly when its local date lies within seven days
      of the stored week_start_date. */
  lemma FiledByWeekStart(zoneOf: UserId -> Zone, e: Entry, w: IsoWeek)
    requires w.isoWeek <= WeeksIn(w.isoYear)
    ensures KeyOf(CalendarWeeks(zoneOf), e) == PeriodKey(e.user, w)
      <==> WeekStart(w) <= zoneOf(e.user).dateOf(e.startAt) < WeekStart(w) + 7
  {
    WeekExistsIff(w);
    WeekStartThursday(w);
    SameWeekIff(zoneOf(e.user).dateOf(e.startAt), WeekStart(w));
    MondayRange(zoneOf(e.user).dateOf(e.startAt), WeekStart(w));
  }
}
