/** What one request does to the tables, told by before and after, and what a second request undoes. */
module Effects {
  import opened Tables
  import opened PeriodRows
  import opened Requests
  import opened LockSoundness
  import opened FrozenWeeks
  import opened Stamps
  import opened Batches
  import opened Hours

  // --- timers ------------------------------------------------------------------------------

  predicate RunsFor(e: Entry, user: UserId) {
    e.user == user && e.status.Running?
  }

  /** `b` is `a`, ended at `now` and drafted. */
  predicate EndedAt(a: Entry, b: Entry, now: Instant) {
    b == a.(endAt := Some(now), status := Draft, updatedAt := now)
  }

  /** Every entry of `a` is in `b`: those running for the user ended at `now`, the rest as they were. */
  predicate OthersEnded(a: Entries, b: Entries, user: UserId, now: Instant) {
    forall id :: id in a ==> id in b && (if RunsFor(a[id], user) then EndedAt(a[id], b[id], now) else b[id] == a[id])
  }

  predicate OnlyRuns(entries: Entries, user: UserId, only: EntryId) {
    forall id :: id in entries ==> (RunsFor(entries[id], user) <==> id == only)
  }

  /** A new timer takes over without a gap: it begins at the instant at which whatever ran before ends, it alone
      runs for the user, it carries the body and the key, and nothing else has moved. */
  lemma StartHandsOver(weekOf: WeekOf, db: Db, user: UserId, key: Option<string>, body: Body, appNow: Instant,
                       now: Instant)
    requires Struct(db)
    ensures var r := StartTimer(weekOf, db, user, key, body, appNow, now);
      r.db != db ==>
        && db.nextId !in db.entries && r.db.entries.Keys == db.entries.Keys + {db.nextId}
        && r.outcome == Replied(Row(db.nextId, r.db.entries[db.nextId]))
        && OthersEnded(db.entries, r.db.entries, user, now) && OnlyRuns(r.db.entries, user, db.nextId)
        && r.db.periods == db.periods && Carries(r.db.entries[db.nextId], user, key, body, now)
  {
    var r := StartTimer(weekOf, db, user, key, body, appNow, now);
    if r.db != db {
      StartShape(weekOf, db, user, key, body, appNow, now);
      TakesOver(db, user, NewTimer(user, key.value, body, now), now);
    }
  }

  /** The whole row of a timer of the user begun at `now`, from the request: running, billable, with no history. */
  predicate Carries(e: Entry, user: UserId, key: Option<string>, body: Body, now: Instant) {
    && e.user == user && e.status.Running? && e.startAt == now && e.endAt.None? && e.updatedAt == now
    && e.billable && e.key == key && e.log == [] && Body(e.project, e.task, e.notes, e.mood) == body
  }

  lemma TakesOver(db: Db, user: UserId, e: Entry, now: Instant)
    requires (forall id :: id in db.entries ==> id < db.nextId) && RunsFor(e, user)
    ensures var after := StopRunning(db.entries, user, None, now)[db.nextId := e];
      && after.Keys == db.entries.Keys + {db.nextId}
      && OthersEnded(db.entries, after, user, now) && OnlyRuns(after, user, db.nextId)
  {
  }

  /** The user's closed, non-empty entries leave the span free. */
  predicate SpanFree(entries: Entries, user: UserId, from: Instant, to: Instant) {
    forall id :: id in entries && entries[id].user == user && entries[id].endAt.Some?
      && entries[id].startAt < entries[id].endAt.value && from < to
      ==> to <= entries[id].startAt || entries[id].endAt.value <= from
  }

  /** What runs for the user can be ended at `now`. */
  predicate CanEnd(entries: Entries, user: UserId, now: Instant) {
    forall id :: id in entries && RunsFor(entries[id], user) ==>
      entries[id].startAt <= now && SpanFree(entries, user, entries[id].startAt, now)
  }

  lemma EndedOverlap(entries: Entries, user: UserId, notes: Option<string>, now: Instant, i: EntryId, j: EntryId)
    requires i in entries && j in entries && i != j && !Overlap(entries[i], entries[j])
    requires RowsWellFormed(entries) && OneRunning(entries) && CanEnd(entries, user, now)
    ensures var b := StopRunning(entries, user, notes, now); !Overlap(b[i], b[j])
  {
    if RunsFor(entries[i], user) && !RunsFor(entries[j], user) && entries[j].user == user {
      assert SpanFree(entries, user, entries[i].startAt, now);
    }
    if RunsFor(entries[j], user) && !RunsFor(entries[i], user) && entries[i].user == user {
      assert SpanFree(entries, user, entries[j].startAt, now);
    }
  }

  lemma EndableFits(entries: Entries, user: UserId, notes: Option<string>, now: Instant)
    requires Constraints(entries) && CanEnd(entries, user, now)
    ensures Constraints(StopRunning(entries, user, notes, now))
  {
    var b := StopRunning(entries, user, notes, now);
    forall i, j | i in b && j in b && i != j ensures !Overlap(b[i], b[j]) {
      assert !Overlap(entries[i], entries[j]);
      EndedOverlap(entries, user, notes, now, i, j);
    }
    assert RowsWellFormed(b);
    assert OneRunning(b);
    assert KeysUnique(b);
  }

  lemma FittingEnds(entries: Entries, user: UserId, notes: Option<string>, now: Instant, id: EntryId)
    requires Constraints(entries) && Constraints(StopRunning(entries, user, notes, now))
    requires id in entries && RunsFor(entries[id], user)
    ensures entries[id].startAt <= now && SpanFree(entries, user, entries[id].startAt, now)
  {
    var b := StopRunning(entries, user, notes, now);
    assert RangeWellFormed(b[id]);
    forall j | j in entries && entries[j].user == user && entries[j].endAt.Some?
      && entries[j].startAt < entries[j].endAt.value && entries[id].startAt < now
      ensures now <= entries[j].startAt || entries[j].endAt.value <= entries[id].startAt
    {
      assert EndMatchesStatus(entries[j]) && b[j] == entries[j];
      assert !Overlap(b[id], b[j]);
    }
  }

  /** The database lets the user's timer end at `now` exactly when it began by then and nothing the user has booked
      lies between. */
  lemma EndingIff(entries: Entries, user: UserId, notes: Option<string>, now: Instant)
    requires Constraints(entries)
    ensures Constraints(StopRunning(entries, user, notes, now)) <==> CanEnd(entries, user, now)
  {
    if CanEnd(entries, user, now) {
      EndableFits(entries, user, notes, now);
    } else if Constraints(StopRunning(entries, user, notes, now)) {
      forall id | id in entries && RunsFor(entries[id], user)
        ensures entries[id].startAt <= now && SpanFree(entries, user, entries[id].startAt, now)
      {
        FittingEnds(entries, user, notes, now, id);
      }
    }
  }

  predicate KeyUsed(entries: Entries, user: UserId, key: string) {
    exists id :: id in entries && entries[id].user == user && entries[id].key == Some(key)
  }

  lemma FreshTimerFits(db: Db, stopped: Entries, user: UserId, key: string, body: Body, now: Instant)
    requires Struct(db) && Constraints(stopped) && stopped == StopRunning(db.entries, user, None, now)
    ensures OneRunning(stopped[db.nextId := NewTimer(user, key, body, now)])
    ensures KeysUnique(stopped[db.nextId := NewTimer(user, key, body, now)]) <==> !KeyUsed(db.entries, user, key)
  {
    var e := NewTimer(user, key, body, now);
    var entries := stopped[db.nextId := e];
    if KeyUsed(db.entries, user, key) {
      var id :| id in db.entries && db.entries[id].user == user && db.entries[id].key == Some(key);
      assert entries[id].key == entries[db.nextId].key && entries[id].user == entries[db.nextId].user;
    } else {
      forall id | id in stopped ensures stopped[id].user != user || stopped[id].key != Some(key) {
        assert db.entries[id].user == stopped[id].user && db.entries[id].key == stopped[id].key;
      }
    }
  }

  /** A first start under a key succeeds iff its week is writable by both clocks, what runs can end, and no entry
      of the user was made under the key. */
  lemma StartSucceedsIff(weekOf: WeekOf, db: Db, user: UserId, key: string, body: Body, appNow: Instant, now: Instant)
    requires Struct(db) && key != "" && CacheKey(user, key) !in db.cache
    ensures StartTimer(weekOf, db, user, Some(key), body, appNow, now).outcome.Replied? <==>
      && Writable(weekOf, db.periods, user, appNow) && Writable(weekOf, db.periods, user, now)
      && CanEnd(db.entries, user, now) && !KeyUsed(db.entries, user, key)
  {
    EndingIff(db.entries, user, None, now);
    var stopped := StopRunning(db.entries, user, None, now);
    if Constraints(stopped) { FreshTimerFits(db, stopped, user, key, body, now); }
  }

  lemma StopEnds(db: Db, user: UserId, key: Option<string>, notes: Option<string>, now: Instant, only: EntryId)
    requires OnlyRuns(db.entries, user, only) && only in db.entries
    ensures var r := StopTimer(db, user, key, notes, now);
      r.db != db ==>
        && r.db.entries.Keys == db.entries.Keys && r.outcome == Replied(Row(only, r.db.entries[only]))
        && EndedAt(db.entries[only].(notes := if notes.Some? then notes else db.entries[only].notes),
             r.db.entries[only], now)
        && (forall id :: id in db.entries && id != only ==> r.db.entries[id] == db.entries[id])
        && r.db.periods == db.periods
  {
    assert RunsFor(db.entries[only], user);
  }

  /** Starting and then stopping books one draft from the one instant to the other, and what ran before ends where
      it begins. */
  lemma StartThenStop(weekOf: WeekOf, db: Db, user: UserId, key: Option<string>, body: Body, appNow: Instant,
                      from: Instant,
                      stopKey: Option<string>, to: Instant)
    requires Struct(db)
    requires StartTimer(weekOf, db, user, key, body, appNow, from).db != db
    ensures var one := StartTimer(weekOf, db, user, key, body, appNow, from).db;
      var two := StopTimer(one, user, stopKey, None, to).db;
      two != one ==>
        && two.entries.Keys == db.entries.Keys + {db.nextId}
        && OthersEnded(db.entries, two.entries, user, from)
        && two.entries[db.nextId]
             == Entry(user, body.project, body.task, body.notes, from, Some(to), Draft, true, body.mood, key, to, [])
  {
    StartHandsOver(weekOf, db, user, key, body, appNow, from);
    StopEnds(StartTimer(weekOf, db, user, key, body, appNow, from).db, user, stopKey, None, to, db.nextId);
  }

  /** After a cleanup that goes through, no timer untouched for a day still runs; those it ended, it ended where
      they were last touched, and it left every other entry alone. */
  lemma CleanupEnds(db: Db, now: Instant)
    ensures var r := Cleanup(db, now);
      r.outcome.Done? ==>
        && r.db.entries.Keys == db.entries.Keys && r.db.periods == db.periods
        && (forall id :: id in db.entries ==>
              var a, b := db.entries[id], r.db.entries[id];
              if a.status.Running? && now - a.updatedAt > DAY
              then EndedAt(a.(notes := Some(Given(a.notes, "") + ABANDONED_NOTE)), b, a.updatedAt)
              else b == a)
  {
  }

  /** A cleanup that went through has nothing left to do until more time passes. */
  lemma CleanupTwice(db: Db, now: Instant, at: Instant)
    requires Cleanup(db, now).outcome.Done? && at <= now
    ensures var once := Cleanup(db, now).db; Cleanup(once, at) == Result(once, Done)
  {
    var once := Cleanup(db, now).db;
    CleanupEnds(db, now);
    forall id | id in once.entries ensures !Abandoned(once.entries[id], at) { }
    assert CloseAbandoned(once.entries, at) == once.entries;
  }

  // --- manual entries ----------------------------------------------------------------------

  /** A manual create succeeds iff the span is a positive one of at most a day, no entry of the user meets it, a
      running one counting as endless, and its week is writable; then exactly that draft is new. */
  lemma CreateSucceedsIff(weekOf: WeekOf, db: Db, user: UserId, m: Manual, now: Instant)
    requires Struct(db)
    ensures var r := CreateManual(weekOf, db, user, m, now);
      && (r.outcome.Done? <==>
            && m.startAt < m.endAt <= m.startAt + DAY && Writable(weekOf, db.periods, user, m.startAt)
            && SpanFree(db.entries, user, m.startAt, m.endAt)
            && forall id :: id in db.entries && RunsFor(db.entries[id], user) ==> m.endAt <= db.entries[id].startAt)
      && (r.outcome.Done? ==>
            && r.db.entries.Keys == db.entries.Keys + {db.nextId} && db.nextId !in db.entries
            && (forall id :: id in db.entries ==> r.db.entries[id] == db.entries[id])
            && Books(r.db.entries[db.nextId], user, m) && r.db.periods == db.periods && r.db.cache == db.cache)
  {
    PrecheckIsEnough(weekOf, db, user, m, now);
    forall id | id in db.entries ensures EndMatchesStatus(db.entries[id]) { }
  }

  predicate Books(e: Entry, user: UserId, m: Manual) {
    && e.user == user && e.status.Draft? && e.startAt == m.startAt && e.endAt == Some(m.endAt) && e.log == []
         && e.key.None?
    && e.project == m.project && e.task == m.task && e.notes == m.notes
    && e.billable == Given(m.billable, true)
  }

  /** Creating an entry and removing it again always succeeds and leaves the tables as they were. */
  lemma CreateThenRemove(weekOf: WeekOf, db: Db, user: UserId, m: Manual, now: Instant)
    requires Struct(db) && CreateManual(weekOf, db, user, m, now).outcome.Done?
    ensures var r := Remove(weekOf, CreateManual(weekOf, db, user, m, now).db, user, db.nextId);
      r.outcome.Done? && r.db == db.(nextId := db.nextId + 1)
  {
    var r := Remove(weekOf, CreateManual(weekOf, db, user, m, now).db, user, db.nextId);
    assert r.db.entries == db.entries;
  }

  /** A successful PATCH writes the fields it gives and no others, of no other entry. */
  lemma EditWrites(weekOf: WeekOf, db: Db, user: UserId, id: EntryId, p: Patch, canSee: bool, now: Instant)
    requires Edit(weekOf, db, user, id, p, canSee, now).outcome.Done?
    ensures var after := Edit(weekOf, db, user, id, p, canSee, now).db;
      && after.entries.Keys == db.entries.Keys
      && (forall other :: other in db.entries && other != id ==> after.entries[other] == db.entries[other])
      && id in after.entries
      && var a, b := db.entries[id], after.entries[id];
      && b.notes == Given(p.notes, a.notes) && b.startAt == Given(p.startAt, a.startAt)
           && b.project == Given(p.project, a.project)
      && b.task == Given(p.task, a.task) && b.billable == Given(p.billable, a.billable)
      && b.endAt == (if p.endAt.Some? then p.endAt else a.endAt)
      && b.(notes := a.notes, startAt := a.startAt, endAt := a.endAt, project := a.project, task := a.task,
           billable := a.billable,
            updatedAt := a.updatedAt) == a
  {
  }

  function Given<T>(field: Option<T>, current: T): T {
    if field.Some? then field.value else current
  }

  /** A PATCH can be repeated: it succeeds again, whoever may see the project by then, and moves only updated_at. */
  lemma EditTwice(weekOf: WeekOf, db: Db, user: UserId, id: EntryId, p: Patch, canSee: bool, now: Instant,
                  canSeeNow: bool, later: Instant)
    requires Struct(db) && Edit(weekOf, db, user, id, p, canSee, now).outcome.Done?
    ensures var once := Edit(weekOf, db, user, id, p, canSee, now).db;
      var twice := Edit(weekOf, once, user, id, p, canSeeNow, later);
      && twice.outcome.Done? && id in once.entries
      && twice.db == if p == NO_CHANGE then once
                     else once.(entries := once.entries[id := once.entries[id].(updatedAt := later)])
  {
    EditLeaves(weekOf, db, user, id, p, canSee, now, later);
    StructEdit(weekOf, db, user, id, p, canSee, now);
    EditOfSame(weekOf, Edit(weekOf, db, user, id, p, canSee, now).db, user, id, p, canSeeNow, later);
  }

  /** The entry has all that `p` gives and is open to the user's edits. */
  predicate HasPatch(weekOf: WeekOf, db: Db, user: UserId, id: EntryId, p: Patch, later: Instant) {
    && id in db.entries && db.entries[id].user == user && !LockedStatus(db.entries[id].status)
    && Patched(db.entries[id], p, later) == db.entries[id].(updatedAt := later)
    && (p.startAt.Some? || p.endAt.Some? ==> Writable(weekOf, db.periods, user, db.entries[id].startAt))
  }

  lemma EditLeaves(weekOf: WeekOf, db: Db, user: UserId, id: EntryId, p: Patch, canSee: bool, now: Instant,
                   later: Instant)
    requires Edit(weekOf, db, user, id, p, canSee, now).outcome.Done?
    ensures HasPatch(weekOf, Edit(weekOf, db, user, id, p, canSee, now).db, user, id, p, later)
  {
    EditWrites(weekOf, db, user, id, p, canSee, now);
    PatchedTwice(db.entries[id], p, now, later);
  }

  lemma EditOfSame(weekOf: WeekOf, db: Db, user: UserId, id: EntryId, p: Patch, canSee: bool, later: Instant)
    requires Struct(db) && HasPatch(weekOf, db, user, id, p, later)
    ensures var entries := db.entries[id := db.entries[id].(updatedAt := later)];
      Edit(weekOf, db, user, id, p, canSee, later)
        == Result(if p == NO_CHANGE then db else db.(entries := entries), Done)
  {
    ConstraintsFrame(db.entries, db.entries[id := db.entries[id].(updatedAt := later)]);
  }

  lemma PatchedTwice(e: Entry, p: Patch, now: Instant, later: Instant)
    ensures Patched(Patched(e, p, now), p, later) == Patched(e, p, now).(updatedAt := later)
  {
  }

  /** The PATCH that sets every field `p` touches to what `e` has. */
  function Back(e: Entry, p: Patch): Patch {
    Patch(if p.notes.Some? then Some(e.notes) else None, if p.startAt.Some? then Some(e.startAt) else None,
          if p.endAt.Some? then e.endAt else None, if p.project.Some? then Some(e.project) else None,
          if p.task.Some? then Some(e.task) else None, if p.billable.Some? then Some(e.billable) else None)
  }

  /** An edit can be undone by an edit iff it left both times alone or the week the entry came from is writable: the
      check looks only at the week an entry goes to, so an entry may leave a locked week but not return. */
  lemma EditUndoneIff(weekOf: WeekOf, db: Db, user: UserId, id: EntryId, p: Patch, canSee: bool, now: Instant,
                      later: Instant)
    requires Struct(db) && Edit(weekOf, db, user, id, p, canSee, now).outcome.Done?
    ensures var once := Edit(weekOf, db, user, id, p, canSee, now).db;
      var r := Edit(weekOf, once, user, id, Back(db.entries[id], p), true, later);
      && (r.outcome.Done? <==>
           (p.startAt.None? && p.endAt.None?) || Writable(weekOf, db.periods, user, db.entries[id].startAt))
      && (r.outcome.Done? ==>
           r.db == db.(entries := db.entries[id := db.entries[id].(updatedAt := r.db.entries[id].updatedAt)]))
  {
    var e := db.entries[id];
    StructEdit(weekOf, db, user, id, p, canSee, now);
    if p != NO_CHANGE {
      var once := Edit(weekOf, db, user, id, p, canSee, now).db;
      assert EndMatchesStatus(e) && EndMatchesStatus(once.entries[id]);
      BackRestores(e, p, now, later);
      assert once.entries[id := e.(updatedAt := later)] == db.entries[id := e.(updatedAt := later)];
      ConstraintsFrame(db.entries, db.entries[id := e.(updatedAt := later)]);
    }
  }

  lemma BackRestores(e: Entry, p: Patch, now: Instant, later: Instant)
    requires p.endAt.Some? ==> e.endAt.Some?
    ensures Patched(Patched(e, p, now), Back(e, p), later) == e.(updatedAt := later)
    ensures Back(e, p) == NO_CHANGE <==> p == NO_CHANGE
  {
  }

  // --- failures ----------------------------------------------------------------------------

  /** A request that fails has changed nothing, unless it is a batch. */
  lemma FailureChangesNothing(weekOf: WeekOf, db: Db, r: Request)
    requires !r.ManagerReq? && !r.FinalReq? && Handle(weekOf, db, r).outcome.Failed?
    ensures Step(weekOf, db, r) == db
  {
  }

  /** A run without its failed requests, other than batches. */
  ghost function WithoutFailures(weekOf: WeekOf, rs: seq<Request>): seq<Request> {
    if rs == [] then []
    else
      var front, r := rs[..|rs| - 1], rs[|rs| - 1];
      WithoutFailures(weekOf, front) + if Fails(weekOf, Run(weekOf, front), r) then [] else [r]
  }

  ghost predicate Fails(weekOf: WeekOf, db: Db, r: Request) {
    !r.ManagerReq? && !r.FinalReq? && Handle(weekOf, db, r).outcome.Failed?
  }

  /** Failed requests other than batches may be dropped from any run: it ends in the same tables. */
  lemma {:induction false} FailuresDropOut(weekOf: WeekOf, rs: seq<Request>)
    ensures Run(weekOf, WithoutFailures(weekOf, rs)) == Run(weekOf, rs)
  {
    if rs != [] {
      var front, r := rs[..|rs| - 1], rs[|rs| - 1];
      FailuresDropOut(weekOf, front);
      var kept := WithoutFailures(weekOf, front);
      if Fails(weekOf, Run(weekOf, front), r) {
        FailureChangesNothing(weekOf, Run(weekOf, front), r);
        assert kept + [] == kept;
      } else {
        assert (kept + [r])[..|kept|] == kept;
      }
    }
  }

  /** A batch succeeds iff it names something, a rejection says why, every id has a row, and no stage-2 id is one the
      actor took through stage 1 last; one that names nothing or says nothing changes nothing. */
  lemma ApprovalSucceedsIff(weekOf: WeekOf, db: Db, r: Request)
    requires r.ManagerReq? || r.FinalReq?
    ensures Handle(weekOf, db, r).outcome.Done? <==>
      && r.ids != [] && (r.approve || (r.why.Some? && |r.why.value| >= 10))
      && (forall id :: id in r.ids ==>
           id in db.entries && (r.FinalReq? ==> Stage1Actor(db.entries[id].log) != Some(r.actor)))
    ensures r.ids == [] || !(r.approve || (r.why.Some? && |r.why.value| >= 10)) ==> Step(weekOf, db, r) == db
  {
    var a := if r.ManagerReq? then ManagerVerdict(r.actor, r.approve, r.why, r.now)
      else FinalVerdict(r.actor, r.approve, r.why, r.now);
    var n := BatchStopsAt(db.entries, r.ids, a);
    forall id | id in r.ids && RunsThrough(db.entries, r.ids, a) ensures Passes(db.entries, id, a) {
      var i :| 0 <= i < |r.ids| && r.ids[i] == id;
    }
  }

  // --- submit ------------------------------------------------------------------------------

  /** A draft filed by `user`: its content stays and one history row tells. */
  predicate FiledBy(a: Entry, b: Entry, user: UserId, now: Instant) {
    b == a.(status := Status.Submitted, updatedAt := now,
            log := a.log + [Transition(Draft, Status.Submitted, user, None)])
  }

  /** The week a submission by `user` of an entry begun at `at` is for: the token's if the whole week is submitted under
      one, else the entry's own. */
  function WeekFor(weekOf: WeekOf, user: UserId, at: Instant, wholeWeek: bool, token: Option<Week>): PeriodKey {
    PeriodKey(user, if wholeWeek && token.Some? then token.value else weekOf(user, at))
  }

  /** A submission files exactly the drafts it is for, the one entry or those of the week. */
  lemma SubmitFiles(weekOf: WeekOf, db: Db, user: UserId, id: EntryId, wholeWeek: bool, token: Option<Week>,
                    now: Instant)
    requires Submit(weekOf, db, user, id, wholeWeek, token, now).outcome.Done?
    ensures id in db.entries && db.entries[id].user == user
    ensures var after, k := Submit(weekOf, db, user, id, wholeWeek, token, now).db,
        WeekFor(weekOf, user, db.entries[id].startAt, wholeWeek, token);
      && after.entries.Keys == db.entries.Keys
      && (forall other :: other in db.entries ==>
            if db.entries[other].status.Draft?
              && (if wholeWeek then KeyOf(weekOf, db.entries[other]) == k else other == id)
            then FiledBy(db.entries[other], after.entries[other], user, now)
            else after.entries[other] == db.entries[other])
  {
  }

  /** It stamps that week with the first submission's time and user, and moves no other week's row. */
  lemma SubmitStamps(weekOf: WeekOf, db: Db, user: UserId, id: EntryId, wholeWeek: bool, token: Option<Week>,
                     now: Instant)
    requires Submit(weekOf, db, user, id, wholeWeek, token, now).outcome.Done?
    ensures id in db.entries
    ensures var after, k := Submit(weekOf, db, user, id, wholeWeek, token, now).db,
        WeekFor(weekOf, user, db.entries[id].startAt, wholeWeek, token);
      && var before := RowOrOpen(db.periods, k);
      && k in after.periods
      && after.periods[k].submittedAt == Some(Given(before.submittedAt, now))
      && after.periods[k].submittedBy == Some(Given(before.submittedBy, user))
      && (forall other :: other != k ==> RowOrOpen(after.periods, other) == RowOrOpen(db.periods, other))
  {
    var k := SubmitTarget(weekOf, db.entries[id], wholeWeek, token);
    StampedOnce(weekOf, Submit(weekOf, db, user, id, wholeWeek, token, now).db.entries, db.periods, k, user, now);
  }

  lemma StampedOnce(weekOf: WeekOf, entries: Entries, periods: Periods, k: PeriodKey, user: UserId, now: Instant)
    ensures var after, before := RecomputeMany(weekOf, entries, StampSubmission(periods, k, user, now), {k}, now),
        RowOrOpen(periods, k);
      && k in after
      && after[k].submittedAt == Some(Given(before.submittedAt, now))
           && after[k].submittedBy == Some(Given(before.submittedBy, user))
      && (forall other :: other != k ==> RowOrOpen(after, other) == RowOrOpen(periods, other))
  {
  }

  // --- the per-entry unlock ----------------------------------------------------------------

  /** A per-entry unlock drafts exactly the one entry and leaves its whole week writable, open or, if another entry
      is rejected, rejected; no other week's lock moves. */
  lemma AdminUnlockOpensWeek(weekOf: WeekOf, db: Db, actor: UserId, id: EntryId, reason: string, now: Instant)
    requires AdminUnlock(weekOf, db, actor, id, reason, now).outcome.Done?
    ensures id in db.entries
    ensures var after, k := AdminUnlock(weekOf, db, actor, id, reason, now).db, KeyOf(weekOf, db.entries[id]);
      && after.entries.Keys == db.entries.Keys && after.entries[id].status.Draft?
           && SameContent(db.entries[id], after.entries[id])
      && (forall other :: other in db.entries && other != id ==> after.entries[other] == db.entries[other])
      && StatusOf(after.periods, k) == (if Has(weekOf, after.entries, k, Rejected) then PRejected else Open)
      && (forall t :: weekOf(k.user, t) == k.week ==> Writable(weekOf, after.periods, k.user, t))
      && (forall other :: other != k ==> (IsLocked(after.periods, other) <==> IsLocked(db.periods, other)))
  {
    var after, k := AdminUnlock(weekOf, db, actor, id, reason, now).db, KeyOf(weekOf, db.entries[id]);
    RecomputeIsRollup(weekOf, after.entries, db.periods, {k}, now);
    assert KeyOf(weekOf, after.entries[id]) == k;
  }

  /** Its history row tells the entry's prior status truthfully iff that was final_approved. */
  lemma AdminUnlockLogsTruthIff(weekOf: WeekOf, db: Db, actor: UserId, id: EntryId, reason: string, now: Instant)
    requires AdminUnlock(weekOf, db, actor, id, reason, now).outcome.Done?
    ensures id in db.entries
    ensures var log := AdminUnlock(weekOf, db, actor, id, reason, now).db.entries[id].log;
      && |log| == |db.entries[id].log| + 1
      && (log[|log| - 1].fromStatus == db.entries[id].status <==> db.entries[id].status.FinalApproved?)
  {
  }
}
