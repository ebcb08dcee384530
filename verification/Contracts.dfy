/** What each request answers and leaves behind, told from the request and the columns of the tables alone: every
    refusal in the order of the checks, every column of every row. */
module Contracts {
  import opened Tables
  import opened Rollup
  import opened PeriodRows
  import opened Requests
  import opened Batches
  import opened LockSoundness
  import opened Effects
  import opened Hours

  // --- weeks and their rows ----------------------------------------------------------------

  /** The user's week of that instant is submitted or beyond. */
  predicate WeekLocked(weekOf: WeekOf, periods: Periods, user: UserId, at: Instant) {
    var k := PeriodKey(user, weekOf(user, at));
    k in periods && periods[k].status in {PSubmitted, PManagerApproved, PFinalApproved}
  }

  predicate FiledStatus(st: Status) {
    st == Status.Submitted || st == ManagerApproved || st == FinalApproved
  }

  predicate InWeek(weekOf: WeekOf, e: Entry, k: PeriodKey) {
    e.user == k.user && weekOf(e.user, e.startAt) == k.week
  }

  predicate Holds(weekOf: WeekOf, entries: Entries, k: PeriodKey, st: Status) {
    exists id :: id in entries && InWeek(weekOf, entries[id], k) && entries[id].status == st
  }

  /** Every entry of the week is a running timer or has one of the statuses. */
  predicate OnlyHolds(weekOf: WeekOf, entries: Entries, k: PeriodKey, statuses: set<Status>) {
    forall id :: id in entries && InWeek(weekOf, entries[id], k) ==>
      entries[id].status == Running || entries[id].status in statuses
  }

  /** The status the entries give the week. */
  predicate Gives(weekOf: WeekOf, entries: Entries, k: PeriodKey, st: PeriodStatus) {
    match st
    case PRejected => Holds(weekOf, entries, k, Rejected)
    case Open =>
      !Holds(weekOf, entries, k, Rejected) && (Holds(weekOf, entries, k, Draft) || OnlyHolds(weekOf, entries, k, {}))
    case PSubmitted =>
      && Holds(weekOf, entries, k, Status.Submitted)
      && OnlyHolds(weekOf, entries, k, {Status.Submitted, ManagerApproved, FinalApproved})
    case PManagerApproved =>
      Holds(weekOf, entries, k, ManagerApproved) && OnlyHolds(weekOf, entries, k, {ManagerApproved, FinalApproved})
    case PFinalApproved => Holds(weekOf, entries, k, FinalApproved) && OnlyHolds(weekOf, entries, k, {FinalApproved})
  }

  /** The rollup is the one status the entries give their week. */
  lemma RollupIsGiven(weekOf: WeekOf, entries: Entries, k: PeriodKey, st: PeriodStatus)
    ensures RollupOf(weekOf, entries, k) == st <==> Gives(weekOf, entries, k, st)
  {
    forall s: Status ensures Holds(weekOf, entries, k, s) <==> Has(weekOf, entries, k, s) {
      if Holds(weekOf, entries, k, s) {
        var id :| id in entries && InWeek(weekOf, entries[id], k) && entries[id].status == s;
        assert KeyOf(weekOf, entries[id]) == k;
      }
    }
    forall id | id in entries && InWeek(weekOf, entries[id], k)
      ensures Holds(weekOf, entries, k, entries[id].status)
    { }
  }

  function RowAt(periods: Periods, k: PeriodKey): Option<Period> {
    if k in periods then Some(periods[k]) else None
  }

  const NO_ROW := Period(Open, None, None, None, None, None)

  /** A stamp is kept while its stage is held, set when it is reached, and cleared below it. */
  predicate StampFollows(was: Option<Instant>, held: bool, is_: Option<Instant>, now: Instant) {
    is_ == if !held then None else if was.Some? then was else Some(now)
  }

  /** The row `p` of a week brought up to date with its entries as `q`. */
  predicate UpToDate(weekOf: WeekOf, entries: Entries, k: PeriodKey, p: Period, q: Period, now: Instant) {
    && Gives(weekOf, entries, k, q.status)
    && q.submittedAt == p.submittedAt && q.submittedBy == p.submittedBy
    && StampFollows(p.managerApprovedAt, q.status == PManagerApproved || q.status == PFinalApproved,
                    q.managerApprovedAt, now)
    && StampFollows(p.finalApprovedAt, q.status == PFinalApproved, q.finalApprovedAt, now)
    && q.reopenedAt ==
         if (p.status == PSubmitted || p.status == PManagerApproved || p.status == PFinalApproved) && q.status == Open
         then Some(now) else p.reopenedAt
  }

  /** The same for a week that may have no row: an open one gets none. */
  predicate BroughtUpToDate(weekOf: WeekOf, entries: Entries, k: PeriodKey, before: Option<Period>,
                            after: Option<Period>, now: Instant) {
    if before.None? && Gives(weekOf, entries, k, Open) then after.None?
    else after.Some?
         && UpToDate(weekOf, entries, k, if before.Some? then before.value else NO_ROW, after.value, now)
  }

  /** A recompute brings the weeks it is for up to date and touches no other row. */
  lemma RecomputeBringsUpToDate(weekOf: WeekOf, entries: Entries, periods: Periods, keys: set<PeriodKey>, now: Instant,
                                k: PeriodKey)
    ensures var after := RecomputeMany(weekOf, entries, periods, keys, now);
      if k in keys then BroughtUpToDate(weekOf, entries, k, RowAt(periods, k), RowAt(after, k), now)
      else RowAt(after, k) == RowAt(periods, k)
  {
    RollupIsGiven(weekOf, entries, k, RollupOf(weekOf, entries, k));
    RollupIsGiven(weekOf, entries, k, Open);
  }

  // --- timers ------------------------------------------------------------------------------

  /** What start inserts, whatever the request's clock said. */
  function TimerRow(user: UserId, key: string, body: Body, now: Instant): Entry {
    Entry(user, body.project, body.task, body.notes, now, None, Running, true, body.mood, Some(key), now, [])
  }

  /** A row as it is after its timer was stopped at `at`. */
  predicate StoppedAt(a: Entry, b: Entry, at: Instant, notes: Option<string>) {
    b == a.(endAt := Some(at), status := Draft, updatedAt := at, notes := if notes.Some? then notes else a.notes)
  }

  predicate AllStopped(a: Entries, b: Entries, user: UserId, at: Instant, notes: Option<string>) {
    forall id :: id in a ==>
      && id in b
      && if a[id].user == user && a[id].status == Running then StoppedAt(a[id], b[id], at, notes) else b[id] == a[id]
  }

  lemma StopRunningIs(a: Entries, user: UserId, notes: Option<string>, now: Instant)
    ensures var b := StopRunning(a, user, notes, now); b.Keys == a.Keys && AllStopped(a, b, user, now, notes)
  {
  }

  /** The new timer beside what it stopped. */
  predicate Started(db: Db, r: Result, user: UserId, key: string, body: Body, now: Instant) {
    var row := TimerRow(user, key, body, now);
    && r.outcome == Replied(Row(db.nextId, row)) && db.nextId !in db.entries
    && r.db.entries.Keys == db.entries.Keys + {db.nextId} && r.db.entries[db.nextId] == row
    && AllStopped(db.entries, r.db.entries, user, now, None)
    && r.db.periods == db.periods && r.db.nextId == db.nextId + 1
    && r.db.cache == db.cache[CacheKey(user, key) := Cached(StartBody(body), Row(db.nextId, row))]
  }

  lemma FirstStart(weekOf: WeekOf, db: Db, user: UserId, key: string, body: Body, appNow: Instant, now: Instant)
    requires Struct(db) && key != "" && CacheKey(user, key) !in db.cache
    ensures var r := StartTimer(weekOf, db, user, Some(key), body, appNow, now);
      if WeekLocked(weekOf, db.periods, user, appNow) then r == Result(db, Failed(Error.PeriodLocked))
      else if !CanEnd(db.entries, user, now) then r == Result(db, Failed(DbFault))
      else if WeekLocked(weekOf, db.periods, user, now) then r == Result(db, Failed(Error.PeriodLocked))
      else if KeyUsed(db.entries, user, key) then r == Result(db, Failed(IdempotencyConflict))
      else Started(db, r, user, key, body, now)
  {
    var stopped := StopRunning(db.entries, user, None, now);
    EndingIff(db.entries, user, None, now);
    if Constraints(stopped) {
      FreshTimerFits(db, stopped, user, key, body, now);
      StopRunningIs(db.entries, user, None, now);
    }
  }

  /** Start: refused, replayed, or the new timer beside what it stopped. */
  lemma StartContract(weekOf: WeekOf, db: Db, user: UserId, key: Option<string>, body: Body, appNow: Instant,
                      now: Instant)
    requires Struct(db)
    ensures var r := Handle(weekOf, db, StartReq(user, key, body, appNow, now));
      if key.None? || key.value == "" then r == Result(db, Failed(ValidationFailed))
      else if CacheKey(user, key.value) in db.cache then
        var cached := db.cache[CacheKey(user, key.value)];
        r == Result(db, if cached.body == StartBody(body) then Replied(cached.reply) else Failed(IdempotencyConflict))
      else if WeekLocked(weekOf, db.periods, user, appNow) then r == Result(db, Failed(Error.PeriodLocked))
      else if !CanEnd(db.entries, user, now) then r == Result(db, Failed(DbFault))
      else if WeekLocked(weekOf, db.periods, user, now) then r == Result(db, Failed(Error.PeriodLocked))
      else if KeyUsed(db.entries, user, key.value) then r == Result(db, Failed(IdempotencyConflict))
      else Started(db, r, user, key.value, body, now)
  {
    if key.Some? && key.value != "" && CacheKey(user, key.value) !in db.cache {
      FirstStart(weekOf, db, user, key.value, body, appNow, now);
    }
  }

  /** Switch is start without a mood; a key stored by one answers the other. */
  lemma SwitchContract(weekOf: WeekOf, db: Db, user: UserId, key: Option<string>, body: Body, appNow: Instant,
                       now: Instant)
    ensures Handle(weekOf, db, SwitchReq(user, key, body, appNow, now))
      == Handle(weekOf, db, StartReq(user, key, Body(body.project, body.task, body.notes, None), appNow, now))
  {
  }

  /** Stop: refused, replayed, or the user's one timer ended; without one the reply says so. */
  lemma StopContract(weekOf: WeekOf, db: Db, user: UserId, key: Option<string>, notes: Option<string>, now: Instant)
    requires Struct(db)
    ensures var r := Handle(weekOf, db, StopReq(user, key, notes, now));
      if key.None? || key.value == "" then r == Result(db, Failed(ValidationFailed))
      else
        var at := CacheKey(user, key.value);
        if at in db.cache then
          r == Result(db, if db.cache[at].body == StopBody(notes) then Replied(db.cache[at].reply)
                          else Failed(IdempotencyConflict))
        else if !CanEnd(db.entries, user, now) then r == Result(db, Failed(DbFault))
        else
          && r.outcome.Replied? && r.db.entries.Keys == db.entries.Keys
          && AllStopped(db.entries, r.db.entries, user, now, notes)
          && (forall id :: id in db.entries && db.entries[id].user == user && db.entries[id].status == Running ==>
                r.outcome.reply == Row(id, r.db.entries[id]))
          && ((forall id :: id in db.entries && db.entries[id].user == user ==> db.entries[id].status != Running) ==>
                r.outcome.reply == NoTimer)
          && r.db.periods == db.periods && r.db.nextId == db.nextId
          && r.db.cache == db.cache[at := Cached(StopBody(notes), r.outcome.reply)]
  {
    StopRunningIs(db.entries, user, notes, now);
    EndingIff(db.entries, user, notes, now);
  }

  /** A running timer that nobody touched for a day before `now`. */
  predicate LeftRunning(e: Entry, now: Instant) {
    e.status == Running && now - e.updatedAt > 86_400_000_000
  }

  /** Each of them can be closed where it was last touched. */
  predicate CanClose(entries: Entries, now: Instant) {
    forall id :: id in entries && LeftRunning(entries[id], now) ==>
      && entries[id].startAt <= entries[id].updatedAt
      && SpanFree(entries, entries[id].user, entries[id].startAt, entries[id].updatedAt)
  }

  predicate ClosedWhereLeft(a: Entry, b: Entry) {
    b == a.(status := Draft, endAt := Some(a.updatedAt),
            notes := Some((if a.notes.Some? then a.notes.value else "") + " [abandoned by timer-stuck-cleanup]"))
  }

  lemma ClosedApart(entries: Entries, now: Instant, i: EntryId, j: EntryId)
    requires i in entries && j in entries && i != j && !Overlap(entries[i], entries[j])
    requires RowsWellFormed(entries) && OneRunning(entries) && CanClose(entries, now)
    ensures var b := CloseAbandoned(entries, now); !Overlap(b[i], b[j])
  {
    if LeftRunning(entries[i], now) && entries[j].status != Running {
      assert SpanFree(entries, entries[i].user, entries[i].startAt, entries[i].updatedAt);
    }
    if LeftRunning(entries[j], now) && entries[i].status != Running {
      assert SpanFree(entries, entries[j].user, entries[j].startAt, entries[j].updatedAt);
    }
  }

  lemma ClosableFits(entries: Entries, now: Instant)
    requires Constraints(entries) && CanClose(entries, now)
    ensures Constraints(CloseAbandoned(entries, now))
  {
    var b := CloseAbandoned(entries, now);
    forall i, j | i in b && j in b && i != j ensures !Overlap(b[i], b[j]) {
      assert !Overlap(entries[i], entries[j]);
      ClosedApart(entries, now, i, j);
    }
    assert RowsWellFormed(b);
    assert OneRunning(b);
    assert KeysUnique(b);
  }

  lemma FittingCloses(entries: Entries, now: Instant, id: EntryId)
    requires Constraints(entries) && Constraints(CloseAbandoned(entries, now))
    requires id in entries && LeftRunning(entries[id], now)
    ensures entries[id].startAt <= entries[id].updatedAt
    ensures SpanFree(entries, entries[id].user, entries[id].startAt, entries[id].updatedAt)
  {
    var b := CloseAbandoned(entries, now);
    assert RangeWellFormed(b[id]);
    forall j | j in entries && entries[j].user == entries[id].user && entries[j].endAt.Some?
      && entries[j].startAt < entries[j].endAt.value && entries[id].startAt < entries[id].updatedAt
      ensures entries[id].updatedAt <= entries[j].startAt || entries[j].endAt.value <= entries[id].startAt
    {
      assert EndMatchesStatus(entries[j]) && b[j] == entries[j];
      assert !Overlap(b[id], b[j]);
    }
  }

  /** Cleanup: all timers left running are closed where they were last touched, or none, iff that can be done for
      each. */
  lemma CleanupContract(weekOf: WeekOf, db: Db, now: Instant)
    requires Struct(db)
    ensures var r := Handle(weekOf, db, CleanupReq(now));
      if !CanClose(db.entries, now) then r == Result(db, Failed(DbFault))
      else
        && r.outcome == Done && r.db == db.(entries := r.db.entries) && r.db.entries.Keys == db.entries.Keys
        && forall id :: id in db.entries ==>
             if LeftRunning(db.entries[id], now) then ClosedWhereLeft(db.entries[id], r.db.entries[id])
             else r.db.entries[id] == db.entries[id]
  {
    if CanClose(db.entries, now) {
      ClosableFits(db.entries, now);
    } else if Constraints(CloseAbandoned(db.entries, now)) {
      forall id | id in db.entries && LeftRunning(db.entries[id], now)
        ensures db.entries[id].startAt <= db.entries[id].updatedAt
          && SpanFree(db.entries, db.entries[id].user, db.entries[id].startAt, db.entries[id].updatedAt)
      {
        FittingCloses(db.entries, now, id);
      }
    }
  }

  // --- submitting --------------------------------------------------------------------------

  /** The entries a submission is for: the one named, or all of the user's of the week. */
  predicate IsFor(weekOf: WeekOf, e: Entry, id: EntryId, named: EntryId, wholeWeek: bool, k: PeriodKey) {
    if wholeWeek then InWeek(weekOf, e, k) else id == named
  }

  /** A draft filed by `user`. */
  predicate Filed1(a: Entry, b: Entry, user: UserId, now: Instant) {
    b == a.(status := Status.Submitted, updatedAt := now,
            log := a.log + [Transition(Draft, Status.Submitted, user, None)])
  }

  /** The row of week `k` before its entries are looked at, with a first submission stamped. */
  function Stamped(p: Option<Period>, user: UserId, now: Instant): Period {
    var row := if p.Some? then p.value else NO_ROW;
    row.(submittedAt := if row.submittedAt.Some? then row.submittedAt else Some(now),
         submittedBy := if row.submittedBy.Some? then row.submittedBy else Some(user))
  }

  /** Submit: unknown or foreign entries are not found; a week the table cannot hold is an error; otherwise exactly the
      drafts it is for are filed, and exactly its week, the token's or the entry's own, is stamped and brought up to
      date. */
  lemma SubmitContract(weekOf: WeekOf, db: Db, user: UserId, id: EntryId, wholeWeek: bool, token: Option<Week>,
                       now: Instant)
    ensures var r := Handle(weekOf, db, SubmitReq(user, id, wholeWeek, token, now));
      if id !in db.entries || db.entries[id].user != user then r == Result(db, Failed(NotFound))
      else
        var week := if wholeWeek && token.Some? then token.value else weekOf(user, db.entries[id].startAt);
        var k := PeriodKey(user, week);
        if week.isoWeek < 1 || week.isoWeek > 53 || week.isoYear == 0 then r == Result(db, Failed(DbFault))
        else
          && r.outcome == Done && r.db == db.(entries := r.db.entries, periods := r.db.periods)
          && r.db.entries.Keys == db.entries.Keys
          && (forall other :: other in db.entries ==>
                var a, b := db.entries[other], r.db.entries[other];
                if IsFor(weekOf, a, other, id, wholeWeek, k) && a.status == Draft then Filed1(a, b, user, now)
                else b == a)
          && k in r.db.periods
          && UpToDate(weekOf, r.db.entries, k, Stamped(RowAt(db.periods, k), user, now), r.db.periods[k], now)
          && forall other :: other != k ==> RowAt(r.db.periods, other) == RowAt(db.periods, other)
  {
    if id in db.entries && db.entries[id].user == user {
      var k := SubmitTarget(weekOf, db.entries[id], wholeWeek, token);
      if Insertable(k.week) {
        var entries := SubmitEntries(db.entries, SubmitIds(weekOf, db.entries, id, k, wholeWeek), user, now);
        FilesExactly(weekOf, db.entries, user, id, wholeWeek, k, now);
        StampsExactly(weekOf, entries, db.periods, k, user, now);
      }
    }
  }

  lemma FilesExactly(weekOf: WeekOf, entries: Entries, user: UserId, id: EntryId, wholeWeek: bool, k: PeriodKey,
                     now: Instant)
    ensures var after := SubmitEntries(entries, SubmitIds(weekOf, entries, id, k, wholeWeek), user, now);
      && after.Keys == entries.Keys
      && forall other :: other in entries ==>
           var a, b := entries[other], after[other];
           if IsFor(weekOf, a, other, id, wholeWeek, k) && a.status == Draft then Filed1(a, b, user, now) else b == a
  {
  }

  lemma StampsExactly(weekOf: WeekOf, entries: Entries, periods: Periods, k: PeriodKey, user: UserId, now: Instant)
    ensures var after := RecomputeMany(weekOf, entries, StampSubmission(periods, k, user, now), {k}, now);
      && k in after && UpToDate(weekOf, entries, k, Stamped(RowAt(periods, k), user, now), after[k], now)
      && forall other :: other != k ==> RowAt(after, other) == RowAt(periods, other)
  {
    var stamped := StampSubmission(periods, k, user, now);
    RecomputeBringsUpToDate(weekOf, entries, stamped, {k}, now, k);
    forall other | other != k
      ensures RowAt(RecomputeMany(weekOf, entries, stamped, {k}, now), other) == RowAt(periods, other)
    {
      RecomputeBringsUpToDate(weekOf, entries, stamped, {k}, now, other);
    }
  }

  // --- manual entries ----------------------------------------------------------------------

  /** An entry of the user meets the span; a running one is endless. */
  predicate Meets(e: Entry, user: UserId, from: Instant, to: Instant) {
    && e.user == user && e.startAt < to
    && (e.endAt.None? || (from < e.endAt.value && e.startAt < e.endAt.value))
  }

  /** Create: a span that is not positive, is longer than a day or meets an entry is invalid, a locked week is refused;
      otherwise exactly that draft is new. */
  lemma CreateContract(weekOf: WeekOf, db: Db, user: UserId, m: Manual, now: Instant)
    requires Struct(db)
    ensures var r := Handle(weekOf, db, CreateReq(user, m, now));
      if m.endAt <= m.startAt || m.endAt - m.startAt > 86_400_000_000
         || exists id :: id in db.entries && Meets(db.entries[id], user, m.startAt, m.endAt)
      then r == Result(db, Failed(ValidationFailed))
      else if WeekLocked(weekOf, db.periods, user, m.startAt) then r == Result(db, Failed(Error.PeriodLocked))
      else
        var row := Entry(user, m.project, m.task, m.notes, m.startAt, Some(m.endAt), Draft,
                         m.billable.None? || m.billable.value, None, None, now, []);
        && r.outcome == Done && db.nextId !in db.entries
        && r.db == db.(entries := db.entries[db.nextId := row], nextId := db.nextId + 1)
  {
    PrecheckIsEnough(weekOf, db, user, m, now);
  }

  /** Two entries are of different users, or one of them has no extent, or one ends before the other begins. */
  predicate Apart(a: Entry, b: Entry) {
    || a.user != b.user || a.endAt.None? || b.endAt.None?
    || a.startAt >= a.endAt.value || b.startAt >= b.endAt.value
    || a.endAt.value <= b.startAt || b.endAt.value <= a.startAt
  }

  /** What the constraints on the table say of row `id`, were it `e`. */
  predicate RowFits(entries: Entries, id: EntryId, e: Entry) {
    && (e.status == Running <==> e.endAt.None?)
    && (e.endAt.Some? ==> e.startAt <= e.endAt.value)
    && forall other :: other in entries && other != id ==> Apart(entries[other], e)
  }

  lemma RowFitsIff(entries: Entries, id: EntryId, e: Entry)
    requires Constraints(entries) && id in entries
    requires e.user == entries[id].user && e.key == entries[id].key && e.status == entries[id].status
    ensures Constraints(entries[id := e]) <==> RowFits(entries, id, e)
  {
    var b := entries[id := e];
    if RowFits(entries, id, e) {
      forall i, j | i in b && j in b && i != j ensures !Overlap(b[i], b[j]) {
        assert i != id && j != id ==> !Overlap(entries[i], entries[j]);
      }
      assert RowsWellFormed(b) && OneRunning(b) && KeysUnique(b);
    }
    if Constraints(b) {
      assert EndMatchesStatus(b[id]) && RangeWellFormed(b[id]);
      forall other | other in entries && other != id ensures !Overlap(b[id], b[other]) { }
    }
  }

  /** The row a PATCH asks for. */
  function Asked(e: Entry, p: Patch, now: Instant): Entry {
    Entry(e.user, if p.project.Some? then p.project.value else e.project, if p.task.Some? then p.task.value else e.task,
          if p.notes.Some? then p.notes.value else e.notes, if p.startAt.Some? then p.startAt.value else e.startAt,
          if p.endAt.Some? then p.endAt else e.endAt, e.status,
          if p.billable.Some? then p.billable.value else e.billable, e.mood, e.key, now, e.log)
  }

  /** PATCH: not found, locked entry, locked week to go to, project not visible, row that does not fit, in this order;
      otherwise exactly the fields given are written, and none leaves even updated_at. */
  lemma EditContract(weekOf: WeekOf, db: Db, user: UserId, id: EntryId, p: Patch, canSee: bool, now: Instant)
    requires Struct(db)
    ensures var r := Handle(weekOf, db, EditReq(user, id, p, canSee, now));
      if id !in db.entries || db.entries[id].user != user then r == Result(db, Failed(NotFound))
      else
        var e := db.entries[id];
        var asked := Asked(e, p, now);
        if FiledStatus(e.status) then r == Result(db, Failed(Error.EntryLocked))
        else if (p.startAt.Some? || p.endAt.Some?) && WeekLocked(weekOf, db.periods, user, asked.startAt)
        then r == Result(db, Failed(Error.PeriodLocked))
        else if asked.project != e.project && !canSee then r == Result(db, Failed(Forbidden))
        else if p == Patch(None, None, None, None, None, None) then r == Result(db, Done)
        else if !RowFits(db.entries, id, asked) then r == Result(db, Failed(DbFault))
        else r == Result(db.(entries := db.entries[id := asked]), Done)
  {
    if id in db.entries && db.entries[id].user == user {
      RowFitsIff(db.entries, id, Asked(db.entries[id], p, now));
      assert Patched(db.entries[id], p, now) == Asked(db.entries[id], p, now);
    }
  }

  /** DELETE: not found, locked entry, locked week; otherwise exactly that entry is gone. */
  lemma RemoveContract(weekOf: WeekOf, db: Db, user: UserId, id: EntryId, now: Instant)
    ensures var r := Handle(weekOf, db, RemoveReq(user, id, now));
      if id !in db.entries || db.entries[id].user != user then r == Result(db, Failed(NotFound))
      else if FiledStatus(db.entries[id].status) then r == Result(db, Failed(Error.EntryLocked))
      else if WeekLocked(weekOf, db.periods, user, db.entries[id].startAt) then
        r == Result(db, Failed(Error.PeriodLocked))
      else
        && r.outcome == Done && r.db == db.(entries := r.db.entries) && r.db.entries.Keys == db.entries.Keys - {id}
        && forall other :: other in r.db.entries ==> r.db.entries[other] == db.entries[other]
  {
  }

  // --- approvals ---------------------------------------------------------------------------

  /** Row `i` of the history is the last that says manager_approved. */
  predicate LastApproval(log: seq<Transition>, i: int) {
    && 0 <= i < |log| && log[i].toStatus == ManagerApproved
    && forall j :: i < j < |log| ==> log[j].toStatus != ManagerApproved
  }

  /** The last row of the history that says manager_approved is the actor's. */
  predicate LastApprovedBy(log: seq<Transition>, actor: UserId) {
    exists i :: 0 <= i < |log| && LastApproval(log, i) && log[i].actor == actor
  }

  lemma {:induction false} LastApprovalIs(log: seq<Transition>, i: int)
    requires LastApproval(log, i)
    ensures Stage1Actor(log) == Some(log[i].actor)
  {
    var front := log[..|log| - 1];
    if i < |front| {
      assert LastApproval(front, i);
      LastApprovalIs(front, i);
    }
  }

  lemma {:induction false} LastApprovalExists(log: seq<Transition>) returns (i: nat)
    requires Stage1Actor(log).Some?
    ensures LastApproval(log, i)
  {
    if log[|log| - 1].toStatus == ManagerApproved { i := |log| - 1; }
    else { i := LastApprovalExists(log[..|log| - 1]); }
  }

  lemma Stage1ActorIs(log: seq<Transition>, actor: UserId)
    ensures Stage1Actor(log) == Some(actor) <==> LastApprovedBy(log, actor)
  {
    if Stage1Actor(log).Some? {
      var i := LastApprovalExists(log);
      LastApprovalIs(log, i);
    }
    if i :| 0 <= i < |log| && LastApproval(log, i) && log[i].actor == actor { LastApprovalIs(log, i); }
  }

  predicate IsReview(r: Request) {
    r.ManagerReq? || r.FinalReq?
  }

  /** A review gets past this id: it has a row, and at stage 2 the actor was not the last to approve it at stage 1. */
  predicate GetsPast(entries: Entries, r: Request, id: EntryId)
    requires IsReview(r)
  {
    id in entries && (r.FinalReq? ==> !LastApprovedBy(entries[id].log, r.actor))
  }

  /** The review gets through its first `n` ids and no further. */
  predicate GetsThrough(entries: Entries, r: Request, n: nat)
    requires IsReview(r)
  {
    && n <= |r.ids| && (forall i :: 0 <= i < n ==> GetsPast(entries, r, r.ids[i]))
    && (n < |r.ids| ==> !GetsPast(entries, r, r.ids[n]))
  }

  /** Entry `a` as `b` after a review named it so many times: moved if it stood where the review takes entries from,
      logged each time in the request's own words. */
  predicate Reviewed(a: Entry, b: Entry, r: Request, times: nat)
    requires IsReview(r)
  {
    var from := if r.ManagerReq? then Status.Submitted else ManagerApproved;
    var to := if !r.approve then Rejected else if r.ManagerReq? then ManagerApproved else FinalApproved;
    var moved := times > 0 && a.status == from;
    b == a.(status := if moved then to else a.status, updatedAt := if moved then r.now else a.updatedAt,
            log := a.log + seq(times, _ => Transition(from, to, r.actor, r.why)))
  }

  lemma TouchedIs(e: Entry, r: Request, a: Action, n: nat)
    requires IsReview(r)
    requires a == if r.ManagerReq? then ManagerVerdict(r.actor, r.approve, r.why, r.now)
                  else FinalVerdict(r.actor, r.approve, r.why, r.now)
    ensures Reviewed(e, TouchedTimes(a, e, n), r, n) && Verdict(a)
    ensures Blocked(a, e) <==> r.FinalReq? && LastApprovedBy(e.log, r.actor)
  {
    TouchedTimesIs(a, e, n);
    TouchedTimesLogs(a, e, n);
    Stage1ActorIs(e.log, r.actor);
  }

  /** What a batch leaves of the entries, and how it stops. */
  lemma BatchLeaves(entries: Entries, r: Request, a: Action, n: nat)
    requires IsReview(r) && GetsThrough(entries, r, n)
    requires a == if r.ManagerReq? then ManagerVerdict(r.actor, r.approve, r.why, r.now)
                  else FinalVerdict(r.actor, r.approve, r.why, r.now)
    ensures var b := RunBatch(entries, r.ids, a);
      && b.entries.Keys == entries.Keys
      && (forall id :: id in entries ==> Reviewed(entries[id], b.entries[id], r, multiset(r.ids[..n])[id]))
      && b.stop == if n == |r.ids| then None else if r.ids[n] in entries then Some(Forbidden) else Some(DbFault)
  {
    forall id | id in entries
      ensures Verdict(a) && (Passes(entries, id, a) <==> GetsPast(entries, r, id))
        && Reviewed(entries[id], TouchedTimes(a, entries[id], multiset(r.ids[..n])[id]), r, multiset(r.ids[..n])[id])
    {
      TouchedIs(entries[id], r, a, multiset(r.ids[..n])[id]);
    }
    var m := BatchStopsAt(entries, r.ids, a);
    FirstStopIs(entries, r.ids, a, m);
    FirstStopIs(entries, r.ids, a, n);
    StopReason(entries, r.ids, a, n);
  }

  /** A batch stops with what its first failing id fails with. */
  lemma {:induction false} StopReason(entries: Entries, ids: seq<EntryId>, a: Action, n: nat)
    requires Verdict(a) && n <= |ids| && RunsThrough(entries, ids[..n], a)
    requires n < |ids| ==> !Passes(entries, ids[n], a)
    ensures RunBatch(entries, ids, a).stop ==
      if n == |ids| then None else if ids[n] in entries then Some(Forbidden) else Some(DbFault)
  {
    if n == |ids| {
      assert ids[..n] == ids;
      BatchClosedForm(entries, ids, a);
    } else {
      var front := ids[..|ids| - 1];
      assert front[..n] == ids[..n];
      if n < |front| {
        StopReason(entries, front, a, n);
      } else {
        assert front == ids[..n];
        BatchClosedForm(entries, front, a);
        if ids[n] in entries { TouchedTimesIs(a, entries[ids[n]], multiset(front)[ids[n]]); }
      }
    }
  }

  /** The week of one of the ids. */
  predicate WeekNamed(weekOf: WeekOf, entries: Entries, ids: seq<EntryId>, k: PeriodKey) {
    exists id :: id in ids && id in entries && InWeek(weekOf, entries[id], k)
  }

  /** Either approval stage: nothing named, or a rejection without ten characters of reason, is invalid. Otherwise the
      entries are reviewed one by one up to the first that has no row or, at stage 2, was last approved by the actor;
      what was done stays. Only a review that gets through brings the weeks it named up to date. */
  lemma ReviewContract(weekOf: WeekOf, db: Db, r: Request, n: nat)
    requires Struct(db) && IsReview(r) && GetsThrough(db.entries, r, n)
    ensures var s := Handle(weekOf, db, r);
      if r.ids == [] || (!r.approve && (r.why.None? || |r.why.value| < 10))
      then s == Result(db, Failed(ValidationFailed))
      else
        && s.outcome == (if n == |r.ids| then Done else Failed(if r.ids[n] in db.entries then Forbidden else DbFault))
        && s.db == db.(entries := s.db.entries, periods := s.db.periods) && s.db.entries.Keys == db.entries.Keys
        && (forall id :: id in db.entries ==>
              Reviewed(db.entries[id], s.db.entries[id], r, multiset(r.ids[..n])[id]))
        && forall k ::
             if n == |r.ids| && WeekNamed(weekOf, db.entries, r.ids, k)
             then BroughtUpToDate(weekOf, s.db.entries, k, RowAt(db.periods, k), RowAt(s.db.periods, k), r.now)
             else RowAt(s.db.periods, k) == RowAt(db.periods, k)
  {
    var a := if r.ManagerReq? then ManagerVerdict(r.actor, r.approve, r.why, r.now)
      else FinalVerdict(r.actor, r.approve, r.why, r.now);
    BatchLeaves(db.entries, r, a, n);
    ReviewRecomputes(weekOf, db, r, a);
  }

  lemma ReviewRecomputes(weekOf: WeekOf, db: Db, r: Request, a: Action)
    requires IsReview(r) && RunBatch(db.entries, r.ids, a).entries.Keys == db.entries.Keys && a.now == r.now
    requires forall id :: id in db.entries ==>
      var b := RunBatch(db.entries, r.ids, a).entries[id];
      b.user == db.entries[id].user && b.startAt == db.entries[id].startAt
    ensures var s := Approval(weekOf, db, r.ids, a);
      forall k ::
        if s.outcome == Done && WeekNamed(weekOf, db.entries, r.ids, k)
        then BroughtUpToDate(weekOf, s.db.entries, k, RowAt(db.periods, k), RowAt(s.db.periods, k), r.now)
        else RowAt(s.db.periods, k) == RowAt(db.periods, k)
  {
    var b := RunBatch(db.entries, r.ids, a).entries;
    var keys := AffectedWeeks(weekOf, b, r.ids);
    forall k ensures k in keys <==> WeekNamed(weekOf, db.entries, r.ids, k) {
      if WeekNamed(weekOf, db.entries, r.ids, k) {
        var id :| id in r.ids && id in db.entries && InWeek(weekOf, db.entries[id], k);
        assert KeyOf(weekOf, b[id]) == k;
      }
    }
    forall k { RecomputeBringsUpToDate(weekOf, b, db.periods, keys, r.now, k); }
  }

  // --- unlocks -----------------------------------------------------------------------------

  /** Back to draft, with a history row that says what the entry was. */
  predicate BackToDraft(a: Entry, b: Entry, said: Status, actor: UserId, reason: string, now: Instant) {
    b == a.(status := Draft, updatedAt := now, log := a.log + [Transition(said, Draft, actor, Some(reason))])
  }

  /** The per-entry unlock: a reason under twenty characters is invalid; an entry without a row, or a running timer, is
      an error; otherwise that entry alone is a draft, logged as final_approved before, and its week is up to date. */
  lemma AdminUnlockContract(weekOf: WeekOf, db: Db, actor: UserId, id: EntryId, reason: string, now: Instant)
    requires Struct(db)
    ensures var r := Handle(weekOf, db, AdminUnlockReq(actor, id, reason, now));
      if |reason| < 20 then r == Result(db, Failed(ValidationFailed))
      else if id !in db.entries || db.entries[id].status == Running then r == Result(db, Failed(DbFault))
      else
        && r.outcome == Done && r.db == db.(entries := r.db.entries, periods := r.db.periods)
        && r.db.entries.Keys == db.entries.Keys
        && BackToDraft(db.entries[id], r.db.entries[id], FinalApproved, actor, reason, now)
        && (forall other :: other in db.entries && other != id ==> r.db.entries[other] == db.entries[other])
        && forall k ::
             if InWeek(weekOf, db.entries[id], k)
             then BroughtUpToDate(weekOf, r.db.entries, k, RowAt(db.periods, k), RowAt(r.db.periods, k), now)
             else RowAt(r.db.periods, k) == RowAt(db.periods, k)
  {
    if |reason| >= 20 && id in db.entries {
      assert EndMatchesStatus(db.entries[id]);
      var entries := db.entries[id := Unlocked(db.entries[id], FinalApproved, actor, reason, now)];
      forall k ensures k == KeyOf(weekOf, entries[id]) <==> InWeek(weekOf, db.entries[id], k) { }
      forall k { RecomputeBringsUpToDate(weekOf, entries, db.periods, {KeyOf(weekOf, entries[id])}, now, k); }
    }
  }

  /** The week unlock: the same reason; exactly the week's filed entries are drafts, each logged as what it was, and the
      week is up to date. */
  lemma UnlockWeekContract(weekOf: WeekOf, db: Db, actor: UserId, k: PeriodKey, reason: string, now: Instant)
    ensures var r := Handle(weekOf, db, UnlockWeekReq(actor, k, reason, now));
      if |reason| < 20 then r == Result(db, Failed(ValidationFailed))
      else
        && r.outcome == Done && r.db == db.(entries := r.db.entries, periods := r.db.periods)
        && r.db.entries.Keys == db.entries.Keys
        && (forall id :: id in db.entries ==>
              var a, b := db.entries[id], r.db.entries[id];
              if InWeek(weekOf, a, k) && FiledStatus(a.status) then BackToDraft(a, b, a.status, actor, reason, now)
              else b == a)
        && BroughtUpToDate(weekOf, r.db.entries, k, RowAt(db.periods, k), RowAt(r.db.periods, k), now)
        && forall other :: other != k ==> RowAt(r.db.periods, other) == RowAt(db.periods, other)
  {
    var entries := UnlockEntries(weekOf, db.entries, k, actor, reason, now);
    forall other { RecomputeBringsUpToDate(weekOf, entries, db.periods, {k}, now, other); }
  }
}
