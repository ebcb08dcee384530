/** The weekly summary scheduler and the clock arithmetic under it, in zones of fixed offset. */
module WeeklyScheduler {
  import opened Tables
  import opened IsoWeeks

  const MINUTE: int := 60_000_000
  const WEEK: int := 7 * DAY

  // --- the clock ---------------------------------------------------------------------------

  datatype Trigger = RangeError | At(instant: Instant)

  /** The first instant after `from` at a local time of day. */
  function NextDailyTriggerAt(hour: int, minute: int, offset: int, from: Instant): Trigger {
    if !(0 <= hour <= 23 && 0 <= minute <= 59) then RangeError
    else
      var candidate := LocalDay(offset, from) * DAY + hour * HOUR + minute * MINUTE - offset;
      At(if candidate <= from then candidate + DAY else candidate)
  }

  /** The first instant after `from` at a weekday (1 is Monday) and a local time of day. */
  function NextWeekdayAt(weekday: int, hour: int, minute: int, offset: int, from: Instant): Instant
    requires 1 <= weekday <= 7
  {
    var candidate := (MondayOf(LocalDay(offset, from)) + weekday - 1) * DAY + hour * HOUR + minute * MINUTE - offset;
    if candidate <= from then candidate + WEEK else candidate
  }

  datatype WeekRange = WeekRange(startUtc: Instant, endUtcExclusive: Instant, startLocal: Day, endLocalExclusive: Day)

  /** The week of an instant, from Monday or, for `weekStart` 7, from the Sunday before it. */
  function RangeOfWeek(t: Instant, offset: int, weekStart: int): WeekRange
    requires weekStart == 1 || weekStart == 7
  {
    var start := MondayOf(LocalDay(offset, t)) - if weekStart == 1 then 0 else 1;
    WeekRange(start * DAY - offset, (start + 7) * DAY - offset, start, start + 7)
  }

  /** The local clock shows this time of day. */
  predicate ShowsTime(hour: int, minute: int, offset: int, t: Instant) {
    (t + offset) % 86_400_000_000 == hour * 3_600_000_000 + minute * 60_000_000
  }

  /** The local clock shows this weekday and time of day. */
  predicate Shows(weekday: int, hour: int, minute: int, offset: int, t: Instant) {
    LocalDay(offset, t) % 7 + 1 == weekday && ShowsTime(hour, minute, offset, t)
  }

  lemma ClockTime(hour: int, minute: int)
    requires 0 <= hour <= 23 && 0 <= minute <= 59
    ensures 0 <= hour * HOUR + minute * MINUTE < DAY
  {
  }

  lemma Scale(a: int, b: int, period: int)
    requires a <= b && period > 0
    ensures period * a <= period * b
  {
  }

  /** Two instants with the same remainder are whole periods apart. */
  lemma Apart(x: int, y: int, period: int)
    requires period > 0 && x % period == y % period && x < y
    ensures x + period <= y
  {
    var p, q := x / period, y / period;
    assert x == period * p + x % period && y == period * q + y % period;
    if q <= p { Scale(q, p, period); }
    Scale(p + 1, q, period);
  }

  lemma Slot(day: int, time: int)
    requires 0 <= time < DAY
    ensures (day * DAY + time) / DAY == day && (day * DAY + time) % DAY == time
  {
  }

  /** A time of day has a trigger iff it exists; that is then the least later instant at which the local clock shows
      the time, at most a day off. */
  lemma NextDailyIsLeast(hour: int, minute: int, offset: int, from: Instant)
    ensures var next := NextDailyTriggerAt(hour, minute, offset, from);
      if !(0 <= hour <= 23 && 0 <= minute <= 59) then next == RangeError
      else
        && next.At? && next.instant - DAY <= from < next.instant && ShowsTime(hour, minute, offset, next.instant)
        && forall t :: from < t && ShowsTime(hour, minute, offset, t) ==> next.instant <= t
  {
    if 0 <= hour <= 23 && 0 <= minute <= 59 {
      ClockTime(hour, minute);
      var time, day := hour * HOUR + minute * MINUTE, LocalDay(offset, from);
      Slot(day, time);
      Slot(day + 1, time);
      var next := NextDailyTriggerAt(hour, minute, offset, from).instant;
      forall t | from < t && ShowsTime(hour, minute, offset, t) ensures next <= t {
        if t < next { Apart(t + offset, next + offset, DAY); }
      }
    }
  }

  lemma WeekSlot(week: int, slot: int)
    requires 0 <= slot < WEEK
    ensures (week * WEEK + slot) % WEEK == slot
  {
  }

  /** A clock reading fixes the instant modulo a week. */
  lemma ShowsModWeek(weekday: int, time: int, x: int)
    requires 1 <= weekday <= 7 && 0 <= time < DAY && x / DAY % 7 + 1 == weekday && x % DAY == time
    ensures x % WEEK == (weekday - 1) * DAY + time
  {
    var day := x / DAY;
    var week := day / 7;
    assert day == 7 * week + weekday - 1;
    assert x == day * DAY + time;
    WeekSlot(week, (weekday - 1) * DAY + time);
    assert x == week * WEEK + ((weekday - 1) * DAY + time);
  }

  lemma WeekdayOf(monday: Day, weekday: int)
    requires monday % 7 == 0 && 1 <= weekday <= 7
    ensures (monday + weekday - 1) % 7 + 1 == weekday
  {
  }

  lemma ShowsAt(monday: Day, weekday: int, hour: int, minute: int, offset: int)
    requires monday % 7 == 0 && 1 <= weekday <= 7 && 0 <= hour <= 23 && 0 <= minute <= 59
    ensures Shows(weekday, hour, minute, offset, (monday + weekday - 1) * DAY + hour * HOUR + minute * MINUTE - offset)
  {
    ClockTime(hour, minute);
    WeekdayOf(monday, weekday);
    Slot(monday + weekday - 1, hour * HOUR + minute * MINUTE);
  }

  lemma NextWeekdayShows(weekday: int, hour: int, minute: int, offset: int, from: Instant)
    requires 1 <= weekday <= 7 && 0 <= hour <= 23 && 0 <= minute <= 59
    ensures var next := NextWeekdayAt(weekday, hour, minute, offset, from);
      next - WEEK <= from < next && Shows(weekday, hour, minute, offset, next)
  {
    ClockTime(hour, minute);
    var monday := MondayOf(LocalDay(offset, from));
    LocalRange(from + offset, monday, monday + 7);
    ShowsAt(monday, weekday, hour, minute, offset);
    ShowsAt(monday + 7, weekday, hour, minute, offset);
  }

  /** The next weekday trigger is the least later instant at which the local clock shows the weekday and the time; a
      week before it is not later than `from`. */
  lemma NextWeekdayIsLeast(weekday: int, hour: int, minute: int, offset: int, from: Instant)
    requires 1 <= weekday <= 7 && 0 <= hour <= 23 && 0 <= minute <= 59
    ensures var next := NextWeekdayAt(weekday, hour, minute, offset, from);
      && next - WEEK <= from < next && Shows(weekday, hour, minute, offset, next)
      && forall t :: from < t && Shows(weekday, hour, minute, offset, t) ==> next <= t
  {
    NextWeekdayShows(weekday, hour, minute, offset, from);
    forall t | from < t && Shows(weekday, hour, minute, offset, t)
      ensures NextWeekdayAt(weekday, hour, minute, offset, from) <= t
    {
      NoEarlier(weekday, hour, minute, offset, from, t);
    }
  }

  lemma NoEarlier(weekday: int, hour: int, minute: int, offset: int, from: Instant, t: Instant)
    requires 1 <= weekday <= 7 && 0 <= hour <= 23 && 0 <= minute <= 59
    requires from < t && Shows(weekday, hour, minute, offset, t)
    ensures NextWeekdayAt(weekday, hour, minute, offset, from) <= t
  {
    var next := NextWeekdayAt(weekday, hour, minute, offset, from);
    NextWeekdayShows(weekday, hour, minute, offset, from);
    ClockTime(hour, minute);
    ShowsModWeek(weekday, hour * HOUR + minute * MINUTE, next + offset);
    ShowsModWeek(weekday, hour * HOUR + minute * MINUTE, t + offset);
    if t < next { Apart(t + offset, next + offset, WEEK); }
  }

  /** A week range is a week long and begins on a Monday or a Sunday; it holds its instant, except that a week begun
      on Sunday never holds the instants of a Sunday. */
  lemma RangeHoldsIff(t: Instant, offset: int, weekStart: int)
    requires weekStart == 1 || weekStart == 7
    ensures var r := RangeOfWeek(t, offset, weekStart);
      && r.endUtcExclusive == r.startUtc + WEEK && r.startLocal % 7 + 1 == weekStart
      && (r.startUtc <= t < r.endUtcExclusive <==> weekStart == 1 || LocalDay(offset, t) % 7 + 1 != 7)
  {
    var start := RangeOfWeek(t, offset, weekStart).startLocal;
    LocalRange(t + offset, start, start + 7);
  }

  // --- the tick ----------------------------------------------------------------------------

  datatype Recipient = Recipient(id: UserId, offset: int)

  datatype Delivery = Delivery(user: UserId, kind: string, periodStart: Day, periodEnd: Day, status: string)

  const SUMMARY := "weekly_summary"

  function NextMonday(offset: int, now: Instant): Instant {
    NextWeekdayAt(1, 8, 0, offset, now)
  }

  /** The week before the most recent Monday, 08:00 local. */
  function PeriodOf(offset: int, now: Instant): WeekRange {
    RangeOfWeek(NextMonday(offset, now) - WEEK - DAY, offset, 1)
  }

  function RowFor(u: Recipient, now: Instant): Delivery {
    var period := PeriodOf(u.offset, now);
    Delivery(u.id, SUMMARY, period.startLocal, period.endLocalExclusive - 1, "queued")
  }

  predicate HasRow(rows: seq<Delivery>, user: UserId, start: Day) {
    exists i :: 0 <= i < |rows| && rows[i].user == user && rows[i].kind == SUMMARY && rows[i].periodStart == start
  }

  /** What one tick makes of the log: a row for each recipient whose period has none. */
  function Ticked(rows: seq<Delivery>, users: seq<Recipient>, now: Instant): seq<Delivery> {
    if users == [] then rows
    else
      var before, row := Ticked(rows, users[..|users| - 1], now), RowFor(users[|users| - 1], now);
      if HasRow(before, row.user, row.periodStart) then before else before + [row]
  }

  class DeliveryLog {
    var rows: seq<Delivery>

    /** The handler: `users` are the active recipients who have not opted out. */
    method Tick(users: seq<Recipient>, now: Instant) returns (scheduled: nat)
      modifies this
      ensures rows == Ticked(old(rows), users, now)
      ensures scheduled == |rows| - |old(rows)|
    {
      scheduled := 0;
      for i := 0 to |users|
        invariant rows == Ticked(old(rows), users[..i], now)
        invariant scheduled == |rows| - |old(rows)|
      {
        assert users[..i + 1][..i] == users[..i];
        var u := users[i];
        LastMondayHasCome(u.offset, now);
        var lastMonday := NextWeekdayAt(1, 8, 0, u.offset, now) - WEEK;
        if lastMonday > now { continue; }
        var period := RangeOfWeek(lastMonday - DAY, u.offset, 1);
        if HasRow(rows, u.id, period.startLocal) { continue; }
        rows := rows + [Delivery(u.id, SUMMARY, period.startLocal, period.endLocalExclusive - 1, "queued")];
        scheduled := scheduled + 1;
      }
      assert users[..|users|] == users;
    }
  }

  /** The test for a Monday still to come never succeeds. */
  lemma LastMondayHasCome(offset: int, now: Instant)
    ensures NextWeekdayAt(1, 8, 0, offset, now) - WEEK <= now
  {
    NextWeekdayIsLeast(1, 8, 0, offset, now);
  }

  // --- periods -----------------------------------------------------------------------------

  /** The last Monday, 08:00, as a day number. */
  lemma LastMondayIs(offset: int, now: Instant) returns (monday: Day)
    ensures monday % 7 == 0 && NextMonday(offset, now) - WEEK + offset == monday * DAY + 8 * HOUR
    ensures monday * DAY <= now + offset - 8 * HOUR < (monday + 7) * DAY
  {
    var near := MondayOf(LocalDay(offset, now));
    LocalRange(now + offset, near, near + 7);
    monday := if near * DAY + 8 * HOUR <= now + offset then near else near - 7;
  }

  /** The period in one expression: the week before that of the clock set back by eight hours. */
  lemma PeriodIs(offset: int, now: Instant)
    ensures PeriodOf(offset, now).startLocal == MondayOf(LocalDay(offset - 8 * HOUR, now)) - 7
    ensures PeriodOf(offset, now).endLocalExclusive == PeriodOf(offset, now).startLocal + 7
    ensures PeriodOf(offset, now).endUtcExclusive + 8 * HOUR <= now
  {
    var monday := LastMondayIs(offset, now);
    Slot(monday - 1, 8 * HOUR);
    assert MondayOf(monday - 1) == monday - 7;
    LocalRange(now + offset - 8 * HOUR, monday, monday + 7);
    MondayRange(LocalDay(offset - 8 * HOUR, now), monday);
  }

  lemma DivisionAscends(x: int, y: int)
    requires x <= y <= x + WEEK
    ensures x / DAY <= y / DAY <= x / DAY + 7
    ensures y == x + WEEK ==> y / DAY == x / DAY + 7
  {
    var day := x / DAY;
    LocalRange(x, day, day + 1);
    LocalRange(y, day, day + 8);
    LocalRange(y, day + 7, day + 8);
  }

  lemma MondaysAscend(a: Day, b: Day)
    requires a <= b <= a + 7
    ensures MondayOf(b) == MondayOf(a) || MondayOf(b) == MondayOf(a) + 7
    ensures b == a + 7 ==> MondayOf(b) == MondayOf(a) + 7
  {
  }

  /** Periods tile: within a week's time the period stays or moves on to the week that begins where it ends. */
  lemma PeriodsTile(offset: int, now: Instant, later: Instant)
    requires now <= later <= now + WEEK
    ensures PeriodOf(offset, later).startLocal == PeriodOf(offset, now).startLocal
      || PeriodOf(offset, later).startLocal == PeriodOf(offset, now).endLocalExclusive
    ensures later == now + WEEK ==> PeriodOf(offset, later).startLocal == PeriodOf(offset, now).endLocalExclusive
  {
    PeriodIs(offset, now);
    PeriodIs(offset, later);
    DivisionAscends(now + offset - 8 * HOUR, later + offset - 8 * HOUR);
    MondaysAscend(LocalDay(offset - 8 * HOUR, now), LocalDay(offset - 8 * HOUR, later));
  }

  // --- the row and the tick, told from the recipient and the clock ----------------------------

  /** The last Monday, 08:00 by the recipient's clock, was that of this date. */
  predicate LastMonday(u: Recipient, now: Instant, monday: Day) {
    monday % 7 == 0
      && monday * 86_400_000_000 <= now + u.offset - 28_800_000_000 < (monday + 7) * 86_400_000_000
  }

  /** The row of a recipient: the weekly summary, queued, of the seven days that ended on the day before that Monday. */
  ghost predicate DueRow(u: Recipient, now: Instant, row: Delivery) {
    exists monday ::
      LastMonday(u, now, monday) && row == Delivery(u.id, "weekly_summary", monday - 7, monday - 1, "queued")
  }

  lemma RowIsDue(u: Recipient, now: Instant)
    ensures DueRow(u, now, RowFor(u, now))
  {
    var monday := LastMondayIs(u.offset, now);
    PeriodIs(u.offset, now);
    LocalRange(now + u.offset - 8 * HOUR, monday, monday + 7);
    MondayRange(LocalDay(u.offset - 8 * HOUR, now), monday);
    assert LastMonday(u, now, monday);
  }

  predicate SameSummary(a: Delivery, b: Delivery) {
    a.user == b.user && a.kind == "weekly_summary" == b.kind && a.periodStart == b.periodStart
  }

  /** Row `i` is the first for its user and period. */
  predicate IsFirst(rows: seq<Delivery>, i: int) {
    0 <= i < |rows| && forall j :: 0 <= j < i ==> !SameSummary(rows[j], rows[i])
  }

  /** Row `i` is the summary due for one of the recipients, who had none for the period. */
  ghost predicate AddedFor(rows: seq<Delivery>, users: seq<Recipient>, now: Instant, i: int) {
    0 <= i < |rows| && IsFirst(rows, i) && exists u :: u in users && DueRow(u, now, rows[i])
  }

  ghost predicate Served(rows: seq<Delivery>, u: Recipient, now: Instant) {
    exists i, row :: 0 <= i < |rows| && DueRow(u, now, row) && SameSummary(rows[i], row)
  }

  /** A tick keeps the log and adds to its end only summaries due for its recipients, each the first of its user and
      period; afterwards every recipient has theirs. */
  lemma {:induction false} TickContract(rows: seq<Delivery>, users: seq<Recipient>, now: Instant)
    ensures var after := Ticked(rows, users, now);
      && |rows| <= |after| && after[..|rows|] == rows
      && (forall i :: |rows| <= i < |after| ==> AddedFor(after, users, now, i))
      && (forall u :: u in users ==> Served(after, u, now))
  {
    if users != [] {
      var front, u := users[..|users| - 1], users[|users| - 1];
      var before, row, after := Ticked(rows, front, now), RowFor(u, now), Ticked(rows, users, now);
      TickContract(rows, front, now);
      RowIsDue(u, now);
      assert users == front + [u];
      assert |before| <= |after| && forall i :: 0 <= i < |before| ==> after[i] == before[i];
      forall i | |rows| <= i < |after| ensures AddedFor(after, users, now, i) {
        if i < |before| {
          assert AddedFor(before, front, now, i);
          var v :| v in front && DueRow(v, now, before[i]);
          assert v in users && IsFirst(after, i);
        } else {
          assert after[i] == row && u in users;
        }
      }
      forall v | v in users ensures Served(after, v, now) {
        if v in front {
          var i, due :| 0 <= i < |before| && DueRow(v, now, due) && SameSummary(before[i], due);
          assert SameSummary(after[i], due);
        } else {
          var i :| 0 <= i < |after| && after[i].user == row.user && after[i].kind == SUMMARY
            && after[i].periodStart == row.periodStart;
          assert SameSummary(after[i], row);
        }
      }
    }
  }

  // --- runs of ticks -----------------------------------------------------------------------

  datatype Tick = Tick(now: Instant, users: seq<Recipient>)

  function Ran(rows: seq<Delivery>, ticks: seq<Tick>): seq<Delivery> {
    if ticks == [] then rows
    else Ticked(Ran(rows, ticks[..|ticks| - 1]), ticks[|ticks| - 1].users, ticks[|ticks| - 1].now)
  }

  /** No user has two summaries for one period. */
  predicate AtMostOne(rows: seq<Delivery>) {
    forall i, j ::
      0 <= i < j < |rows| && rows[i].kind == SUMMARY && rows[j].kind == SUMMARY && rows[i].user == rows[j].user ==>
        rows[i].periodStart != rows[j].periodStart
  }

  lemma AddedRow(rows: seq<Delivery>, row: Delivery, user: UserId, start: Day)
    requires row.kind == SUMMARY
    ensures HasRow(rows + [row], user, start) <==>
        HasRow(rows, user, start) || (row.user == user && row.periodStart == start)
    ensures AtMostOne(rows + [row]) <==> AtMostOne(rows) && !HasRow(rows, row.user, row.periodStart)
  {
    var more := rows + [row];
    assert more[|rows|] == row;
    assert forall i :: 0 <= i < |rows| ==> more[i] == rows[i];
  }

  /** One tick keeps rows apart and leaves a row for exactly the periods that had one or are some recipient's. */
  lemma {:induction false} TickGives(rows: seq<Delivery>, users: seq<Recipient>, now: Instant, user: UserId, start: Day)
    ensures AtMostOne(rows) ==> AtMostOne(Ticked(rows, users, now))
    ensures HasRow(Ticked(rows, users, now), user, start) <==>
      HasRow(rows, user, start) || exists u :: u in users && u.id == user && PeriodOf(u.offset, now).startLocal == start
  {
    if users != [] {
      var front, u := users[..|users| - 1], users[|users| - 1];
      var before, row := Ticked(rows, front, now), RowFor(u, now);
      TickGives(rows, front, now, user, start);
      AddedRow(before, row, user, start);
      assert users == front + [u];
      assert u in users;
    }
  }

  /** Over any run of ticks, whatever the recipients and their zones at each, a user has at most one row per period,
      and has one exactly if it was there before or some tick fell due for it. */
  lemma {:induction false} OneSummaryPerPeriod(rows: seq<Delivery>, ticks: seq<Tick>, user: UserId, start: Day)
    requires AtMostOne(rows)
    ensures AtMostOne(Ran(rows, ticks))
    ensures HasRow(Ran(rows, ticks), user, start) <==>
      || HasRow(rows, user, start)
      || exists k, u :: 0 <= k < |ticks| && u in ticks[k].users && DueFor(u, ticks[k].now, user, start)
  {
    if ticks != [] {
      var front, tick := ticks[..|ticks| - 1], ticks[|ticks| - 1];
      OneSummaryPerPeriod(rows, front, user, start);
      TickGives(Ran(rows, front), tick.users, tick.now, user, start);
      if u :| u in tick.users && DueFor(u, tick.now, user, start) { assert ticks[|ticks| - 1] == tick; }
      if k, u :| 0 <= k < |front| && u in front[k].users && DueFor(u, front[k].now, user, start) {
        assert ticks[k] == front[k];
      }
      if k, u :| 0 <= k < |ticks| && u in ticks[k].users && DueFor(u, ticks[k].now, user, start) {
        assert k < |front| ==> front[k] == ticks[k];
      }
    }
  }

  predicate DueFor(u: Recipient, now: Instant, user: UserId, start: Day) {
    u.id == user && PeriodOf(u.offset, now).startLocal == start
  }

  /** A user's summary periods, in the order they were queued. */
  function StartsOf(rows: seq<Delivery>, user: UserId): seq<Day> {
    if rows == [] then []
    else
      var front, last := rows[..|rows| - 1], rows[|rows| - 1];
      StartsOf(front, user) + if last.user == user && last.kind == SUMMARY then [last.periodStart] else []
  }

  /** The ticks come in order, none more than a week after the last, and all serve this recipient. */
  predicate Steady(ticks: seq<Tick>, u: Recipient) {
    && (forall k :: 0 <= k < |ticks| ==> u in ticks[k].users && OneZone(ticks[k].users, u))
    && (forall k :: 0 < k < |ticks| ==> ticks[k - 1].now <= ticks[k].now <= ticks[k - 1].now + WEEK)
  }

  predicate OneZone(users: seq<Recipient>, u: Recipient) {
    forall v :: v in users && v.id == u.id ==> v == u
  }

  lemma {:induction false} HasRowIff(rows: seq<Delivery>, user: UserId, start: Day)
    ensures HasRow(rows, user, start) <==> start in StartsOf(rows, user)
  {
    if rows != [] {
      var front, last := rows[..|rows| - 1], rows[|rows| - 1];
      HasRowIff(front, user, start);
      assert rows == front + [last];
    }
  }

  /** The user's period at a tick. */
  function StartAt(u: Recipient, now: Instant): Day {
    PeriodOf(u.offset, now).startLocal
  }

  lemma {:induction false} TickStarts(rows: seq<Delivery>, users: seq<Recipient>, now: Instant, u: Recipient)
    requires OneZone(users, u)
    ensures var start := StartAt(u, now);
      StartsOf(Ticked(rows, users, now), u.id) ==
        StartsOf(rows, u.id) + if u in users && start !in StartsOf(rows, u.id) then [start] else []
  {
    if users != [] {
      var front, v := users[..|users| - 1], users[|users| - 1];
      assert users == front + [v];
      TickStarts(rows, front, now, u);
      var before, row := Ticked(rows, front, now), RowFor(v, now);
      HasRowIff(before, row.user, row.periodStart);
      assert (before + [row])[..|before|] == before;
    }
  }

  /** `n` Mondays on end. */
  function Mondays(first: Day, n: nat): seq<Day> {
    seq(n, i => first + 7 * i)
  }

  /** A run of Mondays, and one more tick: the same week again, or the next. */
  lemma OneMoreMonday(first: Day, n: nat, start: Day)
    requires n > 0 && (start == first + 7 * (n - 1) || start == first + 7 * n)
    ensures Mondays(first, n) + (if start !in Mondays(first, n) then [start] else [])
      == Mondays(first, if start == first + 7 * n then n + 1 else n)
  {
    if start == first + 7 * (n - 1) { assert Mondays(first, n)[n - 1] == start; }
  }

  lemma NextPeriod(offset: int, now: Instant, later: Instant)
    requires now <= later <= now + WEEK
    ensures var start, next := PeriodOf(offset, now).startLocal, PeriodOf(offset, later).startLocal;
      next == start || next == start + 7
  {
    PeriodsTile(offset, now, later);
  }

  lemma SteadyFront(ticks: seq<Tick>, u: Recipient)
    requires Steady(ticks, u) && |ticks| > 1
    ensures Steady(ticks[..|ticks| - 1], u)
    ensures StartAt(u, ticks[|ticks| - 1].now) - StartAt(u, ticks[|ticks| - 2].now) in {0, 7}
  {
    NextPeriod(u.offset, ticks[|ticks| - 2].now, ticks[|ticks| - 1].now);
  }

  /** Under steady ticks a user's summaries are for consecutive weeks, none skipped and none repeated, from the period
      of the first tick to that of the last. */
  lemma {:induction false} SummariesTile(ticks: seq<Tick>, u: Recipient) returns (n: nat)
    requires Steady(ticks, u) && ticks != []
    ensures n > 0 && StartsOf(Ran([], ticks), u.id) == Mondays(StartAt(u, ticks[0].now), n)
    ensures StartAt(u, ticks[|ticks| - 1].now) == StartAt(u, ticks[0].now) + 7 * (n - 1)
  {
    var front, tick := ticks[..|ticks| - 1], ticks[|ticks| - 1];
    TickStarts(Ran([], front), tick.users, tick.now, u);
    if front == [] {
      n := 1;
    } else {
      SteadyFront(ticks, u);
      n := SummariesTile(front, u);
      OneMoreMonday(StartAt(u, ticks[0].now), n, StartAt(u, tick.now));
      n := if StartAt(u, tick.now) == StartAt(u, ticks[0].now) + 7 * n then n + 1 else n;
    }
  }
}
