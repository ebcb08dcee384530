/** Weekly summary handlers that overlap: each reads and inserts user by user, in two statements, with no index
    behind. */
module SchedulerRaces {
  import opened Tables
  import opened IsoWeeks
  import opened WeeklyScheduler

  type HandlerId = nat

  /** A running handler, with the row it has for each recipient: `at` counts those it is done with; `seen` says it has
      read that the next is not there. */
  datatype Handler = Handler(due: seq<Delivery>, at: nat, seen: bool)

  function Due(users: seq<Recipient>, now: Instant): seq<Delivery> {
    seq(|users|, i requires 0 <= i < |users| => RowFor(users[i], now))
  }

  datatype World = World(rows: seq<Delivery>, handlers: map<HandlerId, Handler>)

  datatype Event =
    | Begin(c: HandlerId, now: Instant, users: seq<Recipient>)
    | Read(c: HandlerId)
    | Insert(c: HandlerId)
    | Die(c: HandlerId)

  /** The row the handler is about to read or insert. */
  function NextRow(h: Handler): Delivery
    requires h.at < |h.due|
  {
    h.due[h.at]
  }

  predicate Enabled(w: World, ev: Event) {
    match ev
    case Begin(c, _, _) => c !in w.handlers
    case Read(c) => c in w.handlers && w.handlers[c].at < |w.handlers[c].due| && !w.handlers[c].seen
    case Insert(c) => c in w.handlers && w.handlers[c].at < |w.handlers[c].due| && w.handlers[c].seen
    case Die(c) => c in w.handlers
  }

  /** One event; an event that is not enabled does nothing. */
  function Next(w: World, ev: Event): World {
    if !Enabled(w, ev) then w
    else
      match ev
      case Begin(c, now, users) => w.(handlers := w.handlers[c := Handler(Due(users, now), 0, false)])
      case Read(c) =>
        var h := w.handlers[c];
        var found := HasRow(w.rows, NextRow(h).user, NextRow(h).periodStart);
        w.(handlers := w.handlers[c := if found then h.(at := h.at + 1) else h.(seen := true)])
      case Insert(c) =>
        var h := w.handlers[c];
        World(w.rows + [NextRow(h)], w.handlers[c := h.(at := h.at + 1, seen := false)])
      case Die(c) => w.(handlers := w.handlers[c := w.handlers[c].(at := |w.handlers[c].due|, seen := false)])
  }

  /** A handler that died queues nothing any more; the others and the log are as they were. */
  lemma DeadQueuesNothing(w: World, c: HandlerId)
    ensures var after := Next(w, Die(c));
      && after.rows == w.rows && after.handlers - {c} == w.handlers - {c}
      && (c in w.handlers ==> Next(after, Read(c)) == after && Next(after, Insert(c)) == after)
  {
  }

  /** The world after a sequence of events, from a log and no handlers. */
  function After(rows: seq<Delivery>, evs: seq<Event>): World {
    if evs == [] then World(rows, map[]) else Next(After(rows, evs[..|evs| - 1]), evs[|evs| - 1])
  }

  // --- a handler alone ---------------------------------------------------------------------

  function Alone(w: World, c: HandlerId, n: nat): World {
    if n == 0 then w else Next(Next(Alone(w, c, n - 1), Read(c)), Insert(c))
  }

  /** What the handler's rows make of the log: each is added unless its user and period have one. */
  function Queued(rows: seq<Delivery>, due: seq<Delivery>): seq<Delivery> {
    if due == [] then rows
    else
      var before, row := Queued(rows, due[..|due| - 1]), due[|due| - 1];
      if HasRow(before, row.user, row.periodStart) then before else before + [row]
  }

  lemma {:induction false} QueuedIsTick(rows: seq<Delivery>, users: seq<Recipient>, now: Instant)
    ensures Queued(rows, Due(users, now)) == Ticked(rows, users, now)
  {
    if users != [] {
      var front := users[..|users| - 1];
      QueuedIsTick(rows, front, now);
      assert Due(users, now)[..|users| - 1] == Due(front, now);
    }
  }

  lemma OneRow(w: World, c: HandlerId)
    requires c in w.handlers && w.handlers[c].at < |w.handlers[c].due| && !w.handlers[c].seen
    ensures var h, row := w.handlers[c], NextRow(w.handlers[c]);
      Next(Next(w, Read(c)), Insert(c))
        == World(if HasRow(w.rows, row.user, row.periodStart) then w.rows else w.rows + [row],
                                                 w.handlers[c := h.(at := h.at + 1)])
  {
  }

  lemma {:induction false} AloneQueues(w: World, c: HandlerId, n: nat)
    requires c in w.handlers && w.handlers[c].at == 0 && !w.handlers[c].seen && n <= |w.handlers[c].due|
    ensures var h := w.handlers[c];
      Alone(w, c, n) == World(Queued(w.rows, h.due[..n]), w.handlers[c := h.(at := n)])
  {
    if n > 0 {
      AloneQueues(w, c, n - 1);
      OneRow(Alone(w, c, n - 1), c);
      assert w.handlers[c].due[..n][..n - 1] == w.handlers[c].due[..n - 1];
    }
  }

  /** Left alone, a handler is the tick. */
  lemma AloneIsTick(w: World, c: HandlerId, now: Instant, users: seq<Recipient>)
    requires c !in w.handlers
    ensures Alone(Next(w, Begin(c, now, users)), c, |users|).rows == Ticked(w.rows, users, now)
  {
    AloneQueues(Next(w, Begin(c, now, users)), c, |users|);
    assert Due(users, now)[..|users|] == Due(users, now);
    QueuedIsTick(w.rows, users, now);
  }

  // --- counting ----------------------------------------------------------------------------

  predicate Is(d: Delivery, user: UserId, start: Day) {
    d.user == user && d.kind == SUMMARY && d.periodStart == start
  }

  /** How many summaries of the period the user has. */
  function Count(rows: seq<Delivery>, user: UserId, start: Day): nat {
    if rows == [] then 0
    else Count(rows[..|rows| - 1], user, start) + if Is(rows[|rows| - 1], user, start) then 1 else 0
  }

  lemma {:induction false} HasRowIsCount(rows: seq<Delivery>, user: UserId, start: Day)
    ensures HasRow(rows, user, start) <==> Count(rows, user, start) > 0
  {
    if rows != [] {
      HasRowIsCount(rows[..|rows| - 1], user, start);
      assert rows == rows[..|rows| - 1] + [rows[|rows| - 1]];
    }
  }

  /** The handler has read that the user has no summary of the period, and not yet inserted one. */
  predicate Waiting(w: World, c: HandlerId, user: UserId, start: Day) {
    && c in w.handlers && w.handlers[c].seen && w.handlers[c].at < |w.handlers[c].due|
    && Is(NextRow(w.handlers[c]), user, start)
  }

  /** One event adds at most one summary: the insert of a handler that was waiting to, and then is not any more. */
  lemma EventCounts(w: World, ev: Event, user: UserId, start: Day)
    ensures var added := if ev.Insert? && Waiting(w, ev.c, user, start) then 1 else 0;
      Count(Next(w, ev).rows, user, start) == Count(w.rows, user, start) + added
  {
    if Enabled(w, ev) && ev.Insert? {
      assert (w.rows + [NextRow(w.handlers[ev.c])])[..|w.rows|] == w.rows;
    }
  }

  /** A handler begins to wait by reading that there is no row, and ends by inserting or dying. */
  lemma EventWaits(w: World, ev: Event, c: HandlerId, user: UserId, start: Day)
    ensures Waiting(Next(w, ev), c, user, start) && !Waiting(w, c, user, start) ==>
      ev == Read(c) && Count(w.rows, user, start) == 0
    ensures ev == Insert(c) && Waiting(w, c, user, start) ==> !Waiting(Next(w, ev), c, user, start)
  {
    HasRowIsCount(w.rows, user, start);
  }

  lemma {:induction false} CountAscends(rows: seq<Delivery>, evs: seq<Event>, n: nat, user: UserId, start: Day)
    requires n <= |evs|
    ensures Count(After(rows, evs[..n]).rows, user, start) <= Count(After(rows, evs).rows, user, start)
    decreases |evs|
  {
    if n == |evs| {
      assert evs[..n] == evs;
    } else {
      var front := evs[..|evs| - 1];
      CountAscends(rows, front, n, user, start);
      assert front[..n] == evs[..n];
      EventCounts(After(rows, front), evs[|evs| - 1], user, start);
    }
  }

  lemma CountAscendsTo(rows: seq<Delivery>, evs: seq<Event>, n: nat, m: nat, user: UserId, start: Day)
    requires n <= m <= |evs|
    ensures Count(After(rows, evs[..n]).rows, user, start) <= Count(After(rows, evs[..m]).rows, user, start)
  {
    assert evs[..m][..n] == evs[..n];
    CountAscends(rows, evs[..m], n, user, start);
  }

  // --- two summaries -----------------------------------------------------------------------

  /** Event `i` is the insert of a handler that was waiting to. */
  predicate InsertsAt(rows: seq<Delivery>, evs: seq<Event>, i: nat, c: HandlerId, user: UserId, start: Day) {
    i < |evs| && evs[i] == Insert(c) && Waiting(After(rows, evs[..i]), c, user, start)
  }

  /** The event that takes the count from `n` to `n + 1`. */
  lemma {:induction false} CountCrosses(rows: seq<Delivery>, evs: seq<Event>, n: nat, user: UserId, start: Day)
    returns (i: nat)
    requires Count(rows, user, start) <= n < Count(After(rows, evs).rows, user, start)
    ensures i < |evs| && evs[i].Insert? && InsertsAt(rows, evs, i, evs[i].c, user, start)
    ensures Count(After(rows, evs[..i]).rows, user, start) == n
    ensures Count(After(rows, evs[..i + 1]).rows, user, start) == n + 1
  {
    var front := evs[..|evs| - 1];
    EventCounts(After(rows, front), evs[|evs| - 1], user, start);
    if n < Count(After(rows, front).rows, user, start) {
      i := CountCrosses(rows, front, n, user, start);
      assert front[..i] == evs[..i] && front[..i + 1] == evs[..i + 1];
    } else {
      i := |evs| - 1;
      assert evs[..i + 1] == evs;
    }
  }

  /** A handler that waits has waited since it read, when there was no row. */
  lemma {:induction false} WaitsSince(rows: seq<Delivery>, evs: seq<Event>, c: HandlerId, user: UserId, start: Day)
    returns (r: nat)
    requires Waiting(After(rows, evs), c, user, start)
    ensures r < |evs| && evs[r] == Read(c) && Count(After(rows, evs[..r]).rows, user, start) == 0
    ensures forall m :: r < m <= |evs| ==> Waiting(After(rows, evs[..m]), c, user, start)
  {
    var front := evs[..|evs| - 1];
    assert evs[..|evs|] == evs;
    EventWaits(After(rows, front), evs[|evs| - 1], c, user, start);
    if Waiting(After(rows, front), c, user, start) {
      r := WaitsSince(rows, front, c, user, start);
      forall m | 0 <= m < |evs| ensures front[..m] == evs[..m] { }
    } else {
      r := |evs| - 1;
    }
  }

  /** At moment `m` two handlers have both read that there is no row, and both insert one afterwards. */
  ghost predicate Overlap(rows: seq<Delivery>, evs: seq<Event>, user: UserId, start: Day, m: nat, i: nat, j: nat) {
    && m <= i < |evs| && m <= j < |evs| && evs[i].Insert? && evs[j].Insert? && evs[i].c != evs[j].c
    && InsertsAt(rows, evs, i, evs[i].c, user, start) && InsertsAt(rows, evs, j, evs[j].c, user, start)
    && Waiting(After(rows, evs[..m]), evs[i].c, user, start) && Waiting(After(rows, evs[..m]), evs[j].c, user, start)
  }

  lemma TwoMeansOverlap(rows: seq<Delivery>, evs: seq<Event>, user: UserId, start: Day) returns (i: nat, j: nat)
    requires Count(rows, user, start) <= 1 < Count(After(rows, evs).rows, user, start)
    ensures Overlap(rows, evs, user, start, i, i, j)
  {
    j := CountCrosses(rows, evs, 1, user, start);
    var second := evs[..j];
    var r := WaitsSince(rows, second, evs[j].c, user, start);
    CountAscendsTo(rows, second, 0, r, user, start);
    i := CountCrosses(rows, second, 0, user, start);
    assert second[..i] == evs[..i] && second[i] == evs[i];
    if i < r { CountAscendsTo(rows, second, i + 1, r, user, start); }
    assert r < i;
    EventWaits(After(rows, evs[..i]), evs[i], evs[i].c, user, start);
    assert evs[..i + 1][..i] == evs[..i] && second[..i + 1] == evs[..i + 1];
  }

  lemma InsertCounts(rows: seq<Delivery>, evs: seq<Event>, i: nat, user: UserId, start: Day)
    requires i < |evs| && evs[i].Insert? && InsertsAt(rows, evs, i, evs[i].c, user, start)
    ensures Count(After(rows, evs[..i + 1]).rows, user, start) == Count(After(rows, evs[..i]).rows, user, start) + 1
  {
    assert evs[..i + 1][..i] == evs[..i];
    EventCounts(After(rows, evs[..i]), evs[i], user, start);
  }

  lemma TwoInserts(rows: seq<Delivery>, evs: seq<Event>, i: nat, j: nat, user: UserId, start: Day)
    requires i < j < |evs| && evs[i].Insert? && evs[j].Insert?
    requires InsertsAt(rows, evs, i, evs[i].c, user, start) && InsertsAt(rows, evs, j, evs[j].c, user, start)
    ensures Count(After(rows, evs).rows, user, start) >= 2
  {
    InsertCounts(rows, evs, i, user, start);
    InsertCounts(rows, evs, j, user, start);
    CountAscendsTo(rows, evs, i + 1, j, user, start);
    CountAscends(rows, evs, j + 1, user, start);
  }

  /** Over every interleaving of handlers, from a log that has at most one: a user has two summaries of a period exactly
      when two handlers both read that there was none before either inserted one. */
  lemma TwiceIff(rows: seq<Delivery>, evs: seq<Event>, user: UserId, start: Day)
    requires Count(rows, user, start) <= 1
    ensures Count(After(rows, evs).rows, user, start) >= 2 <==>
        exists m, i, j :: Overlap(rows, evs, user, start, m, i, j)
  {
    if Count(After(rows, evs).rows, user, start) >= 2 {
      var i, j := TwoMeansOverlap(rows, evs, user, start);
    }
    if m: nat, i: nat, j: nat :| Overlap(rows, evs, user, start, m, i, j) {
      if i < j { TwoInserts(rows, evs, i, j, user, start); } else { TwoInserts(rows, evs, j, i, user, start); }
    }
  }

  /** Two ticks as they may meet: both begin, both read, both insert. */
  function Meet(u: Recipient, now: Instant): seq<Event> {
    [Begin(0, now, [u])] + [Begin(1, now, [u])] + [Read(0)] + [Read(1)] + [Insert(0)] + [Insert(1)]
  }

  lemma Then(rows: seq<Delivery>, evs: seq<Event>, ev: Event)
    ensures After(rows, evs + [ev]) == Next(After(rows, evs), ev)
  {
    assert (evs + [ev])[..|evs|] == evs;
  }

  /** So two ticks that meet queue the same summary twice, whatever else the log holds. */
  lemma MeetingRepeats(rows: seq<Delivery>, u: Recipient, now: Instant)
    requires !HasRow(rows, u.id, RowFor(u, now).periodStart)
    ensures After(rows, Meet(u, now)).rows == rows + [RowFor(u, now), RowFor(u, now)]
  {
    var e1 := [Begin(0, now, [u])];
    assert [] + e1 == e1;
    Then(rows, [], Begin(0, now, [u]));
    Then(rows, e1, Begin(1, now, [u]));
    Then(rows, e1 + [Begin(1, now, [u])], Read(0));
    Then(rows, e1 + [Begin(1, now, [u])] + [Read(0)], Read(1));
    Then(rows, e1 + [Begin(1, now, [u])] + [Read(0)] + [Read(1)], Insert(0));
    Then(rows, e1 + [Begin(1, now, [u])] + [Read(0)] + [Read(1)] + [Insert(0)], Insert(1));
  }
}
