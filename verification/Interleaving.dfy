/** Concurrent requests. Timer requests run in five separate steps (lookup, precheck, the transaction's UPDATE,
    its INSERT with commit, store), manual writes in two (precheck, write); between any two steps anything else
    may happen, another request's steps, whole other requests, or a crash. */
module Interleaving {
  import opened Tables
  import opened PeriodRows
  import opened Requests
  import opened LockSoundness
  import opened FrozenWeeks

  type CallId = nat

  datatype Work =
    | TimerWork(key: string, body: Body)
    | CreateWork(manual: Manual)
    | EditWork(edited: EntryId, patch: Patch, canSee: bool)
    | RemoveWork(removed: EntryId)

  datatype Pc =
    | Arrived
    | Missed                                        // the key was not stored
    | Checked                                       // the precheck passed
    | Stopping(running: set<EntryId>, at: Instant)  // the UPDATE saw these rows running
    | Committed(reply: Reply)                       // committed, not yet stored
    | Finished(reply: Reply)
    | Written
    | Aborted(error: Error)
    | Crashed

  datatype Call = Call(user: UserId, work: Work, pc: Pc)

  datatype World = World(db: Db, calls: map<CallId, Call>)

  datatype Event =
    | Arrive(c: CallId, user: UserId, work: Work)
    | LookUp(c: CallId)
    | Check(c: CallId, appNow: Instant)
    | Update(c: CallId, now: Instant)
    | Commit(c: CallId)
    | Store(c: CallId)
    | Write(c: CallId, now: Instant)
    | Crash(c: CallId)
    | Whole(request: Request)

  // --- what the steps do -------------------------------------------------------------------

  /** The UPDATE re-reads each row it saw running, and stops it if it still runs. */
  function StopSeen(entries: Entries, seen: set<EntryId>, now: Instant): Entries {
    map id | id in entries ::
      if id in seen && entries[id].status.Running? then Stopped(entries[id], None, now) else entries[id]
  }

  function RunningIds(entries: Entries, user: UserId): set<EntryId> {
    set id | id in entries && entries[id].user == user && entries[id].status.Running?
  }

  datatype Attempt = Attempt(db: Db, pc: Pc)

  function CommitTimer(weekOf: WeekOf, db: Db, user: UserId, key: string, body: Body, seen: set<EntryId>,
                       now: Instant): Attempt {
    var stopped := StopSeen(db.entries, seen, now);
    var entry := NewTimer(user, key, body, now);
    if !Constraints(stopped) then Attempt(db, Aborted(DbFault))
    else if !Writable(weekOf, db.periods, user, now) then Attempt(db, Aborted(PeriodLocked))
    else if !OneRunning(stopped[db.nextId := entry]) || !KeysUnique(stopped[db.nextId := entry])
    then Attempt(db, Aborted(IdempotencyConflict))
    else Attempt(db.(entries := stopped[db.nextId := entry], nextId := db.nextId + 1), Committed(Row(db.nextId, entry)))
  }

  /** The precheck of each kind of request, on the tables as they are now. */
  function Precheck(weekOf: WeekOf, db: Db, user: UserId, work: Work, appNow: Instant): Pc {
    match work
    case TimerWork(_, _) => if Writable(weekOf, db.periods, user, appNow) then Checked else Aborted(PeriodLocked)
    case CreateWork(m) =>
      if m.endAt <= m.startAt || m.endAt - m.startAt > DAY then Aborted(ValidationFailed)
      else if exists id :: id in db.entries && PreOverlap(db.entries[id], user, m.startAt, m.endAt)
      then Aborted(ValidationFailed)
      else if !Writable(weekOf, db.periods, user, m.startAt) then Aborted(PeriodLocked)
      else Checked
    case EditWork(id, p, canSee) =>
      if id !in db.entries || db.entries[id].user != user then Aborted(NotFound)
      else
        var e := db.entries[id];
        if LockedStatus(e.status) then Aborted(EntryLocked)
        else if (p.startAt.Some? || p.endAt.Some?) && !Writable(weekOf, db.periods, user, Patched(e, p, appNow).startAt)
        then Aborted(PeriodLocked)
        else if p.project.Some? && p.project.value != e.project && !canSee then Aborted(Forbidden)
        else Checked
    case RemoveWork(id) =>
      if id !in db.entries || db.entries[id].user != user then Aborted(NotFound)
      else if LockedStatus(db.entries[id].status) then Aborted(EntryLocked)
      else if !Writable(weekOf, db.periods, user, db.entries[id].startAt) then Aborted(PeriodLocked)
      else Checked
  }

  /** The write of a manual request: one statement, guarded by the trigger and the constraints of the moment. */
  function WriteNow(weekOf: WeekOf, db: Db, user: UserId, work: Work, now: Instant): Attempt {
    match work
    case TimerWork(_, _) => Attempt(db, Aborted(DbFault))
    case CreateWork(m) =>
      var entries := db.entries[db.nextId := ManualEntry(user, m, now)];
      if !Writable(weekOf, db.periods, user, m.startAt) then Attempt(db, Aborted(PeriodLocked))
      else if !Constraints(entries) then Attempt(db, Aborted(DbFault))
      else Attempt(db.(entries := entries, nextId := db.nextId + 1), Written)
    case EditWork(id, p, _) =>
      if id !in db.entries || p == NO_CHANGE then Attempt(db, Written)
      else
        var e := db.entries[id];
        var next := Patched(e, p, now);
        if next.startAt != e.startAt && !Writable(weekOf, db.periods, e.user, next.startAt)
        then Attempt(db, Aborted(PeriodLocked))
        else if !Constraints(db.entries[id := next]) then Attempt(db, Aborted(DbFault))
        else Attempt(db.(entries := db.entries[id := next]), Written)
    case RemoveWork(id) => Attempt(db.(entries := db.entries - {id}), Written)
  }

  predicate Enabled(w: World, ev: Event) {
    match ev
    case Arrive(c, _, _) => c !in w.calls
    case LookUp(c) => c in w.calls && w.calls[c].pc.Arrived? && w.calls[c].work.TimerWork?
    case Check(c, _) =>
      c in w.calls && (if w.calls[c].work.TimerWork? then w.calls[c].pc.Missed? else w.calls[c].pc.Arrived?)
    case Update(c, _) => c in w.calls && w.calls[c].pc.Checked? && w.calls[c].work.TimerWork?
    case Commit(c) => c in w.calls && w.calls[c].pc.Stopping? && w.calls[c].work.TimerWork?
    case Store(c) => c in w.calls && w.calls[c].pc.Committed? && w.calls[c].work.TimerWork?
    case Write(c, _) => c in w.calls && w.calls[c].pc.Checked? && !w.calls[c].work.TimerWork?
    case Crash(c) => c in w.calls
    case Whole(_) => true
  }

  function Moved(w: World, c: CallId, db: Db, pc: Pc): World
    requires c in w.calls
  {
    World(db, w.calls[c := w.calls[c].(pc := pc)])
  }

  /** One event; an event that is not enabled does nothing. */
  ghost function Next(weekOf: WeekOf, w: World, ev: Event): World {
    if !Enabled(w, ev) then w
    else
      match ev
      case Arrive(c, user, work) => w.(calls := w.calls[c := Call(user, work, Arrived)])
      case LookUp(c) =>
        var call := w.calls[c];
        Moved(w, c, w.db, match LookupKey(w.db.cache, call.user, call.work.key, StartBody(call.work.body))
                          case Hit(reply) => Finished(reply)
                          case Conflict => Aborted(IdempotencyConflict)
                          case Miss => Missed)
      case Check(c, appNow) => Moved(w, c, w.db, Precheck(weekOf, w.db, w.calls[c].user, w.calls[c].work, appNow))
      case Update(c, now) => Moved(w, c, w.db, Stopping(RunningIds(w.db.entries, w.calls[c].user), now))
      case Commit(c) =>
        var call := w.calls[c];
        var attempt := CommitTimer(weekOf, w.db, call.user, call.work.key, call.work.body, call.pc.running, call.pc.at);
        Moved(w, c, attempt.db, attempt.pc)
      case Store(c) =>
        var call := w.calls[c];
        Moved(w, c,
          w.db.(cache := StoreKey(w.db.cache, call.user, call.work.key, StartBody(call.work.body), call.pc.reply)),
              Finished(call.pc.reply))
      case Write(c, now) =>
        var attempt := WriteNow(weekOf, w.db, w.calls[c].user, w.calls[c].work, now);
        Moved(w, c, attempt.db, attempt.pc)
      case Crash(c) => Moved(w, c, w.db, Crashed)
      case Whole(r) => w.(db := Step(weekOf, w.db, r))
  }

  const START := World(EMPTY, map[])

  /** The world after a sequence of events. */
  ghost function After(weekOf: WeekOf, w: World, evs: seq<Event>): World {
    if evs == [] then w else Next(weekOf, After(weekOf, w, evs[..|evs| - 1]), evs[|evs| - 1])
  }

  // --- one call at a time ------------------------------------------------------------------

  /** What the caller of a finished request is told. */
  predicate Tells(pc: Pc, outcome: Outcome) {
    match outcome
    case Replied(reply) => pc == Finished(reply)
    case Done => pc == Written
    case Failed(error) => pc == Aborted(error)
  }

  lemma Then(weekOf: WeekOf, w: World, evs: seq<Event>, ev: Event)
    ensures After(weekOf, w, evs + [ev]) == Next(weekOf, After(weekOf, w, evs), ev)
  {
    assert (evs + [ev])[..|evs|] == evs;
  }

  /** The five steps of a timer request. */
  function TimerSteps(c: CallId, user: UserId, key: string, body: Body, appNow: Instant, now: Instant): seq<Event> {
    [Arrive(c, user, TimerWork(key, body))] + [LookUp(c)] + [Check(c, appNow)] + [Update(c, now)] + [Commit(c)]
      + [Store(c)]
  }

  lemma AfterSteps(weekOf: WeekOf, w: World, c: CallId, user: UserId, key: string, body: Body, appNow: Instant,
                   now: Instant)
    ensures var one := Next(weekOf, w, Arrive(c, user, TimerWork(key, body)));
      var two := Next(weekOf, Next(weekOf, one, LookUp(c)), Check(c, appNow));
      var three := Next(weekOf, Next(weekOf, two, Update(c, now)), Commit(c));
      After(weekOf, w, TimerSteps(c, user, key, body, appNow, now)) == Next(weekOf, three, Store(c))
  {
    var arrive := [Arrive(c, user, TimerWork(key, body))];
    assert [] + arrive == arrive;
    Then(weekOf, w, [], arrive[0]);
    Then(weekOf, w, arrive, LookUp(c));
    Then(weekOf, w, arrive + [LookUp(c)], Check(c, appNow));
    Then(weekOf, w, arrive + [LookUp(c)] + [Check(c, appNow)], Update(c, now));
    Then(weekOf, w, arrive + [LookUp(c)] + [Check(c, appNow)] + [Update(c, now)], Commit(c));
    Then(weekOf, w, arrive + [LookUp(c)] + [Check(c, appNow)] + [Update(c, now)] + [Commit(c)], Store(c));
  }

  /** Lookup, precheck and transaction with nothing in between. */
  function AtOnce(weekOf: WeekOf, db: Db, user: UserId, key: string, body: Body, appNow: Instant,
                  now: Instant): Attempt {
    match LookupKey(db.cache, user, key, StartBody(body))
    case Hit(reply) => Attempt(db, Finished(reply))
    case Conflict => Attempt(db, Aborted(IdempotencyConflict))
    case Miss =>
      if !Writable(weekOf, db.periods, user, appNow) then Attempt(db, Aborted(PeriodLocked))
      else
        var commit := CommitTimer(weekOf, db, user, key, body, RunningIds(db.entries, user), now);
        if commit.pc.Committed?
        then Attempt(commit.db.(cache := StoreKey(db.cache, user, key, StartBody(body), commit.pc.reply)),
          Finished(commit.pc.reply))
        else commit
  }

  lemma AtOnceIsAtomic(weekOf: WeekOf, db: Db, user: UserId, key: string, body: Body, appNow: Instant, now: Instant)
    requires key != ""
    ensures var whole := StartTimer(weekOf, db, user, Some(key), body, appNow, now);
      AtOnce(weekOf, db, user, key, body, appNow, now).db == whole.db
      && Tells(AtOnce(weekOf, db, user, key, body, appNow, now).pc, whole.outcome)
  {
    assert StopSeen(db.entries, RunningIds(db.entries, user), now) == StopRunning(db.entries, user, None, now);
  }

  /** Where the lookup and the precheck leave a timer call. */
  function Checking(weekOf: WeekOf, db: Db, user: UserId, key: string, body: Body, appNow: Instant): Pc {
    match LookupKey(db.cache, user, key, StartBody(body))
    case Hit(reply) => Finished(reply)
    case Conflict => Aborted(IdempotencyConflict)
    case Miss => if Writable(weekOf, db.periods, user, appNow) then Checked else Aborted(PeriodLocked)
  }

  lemma CheckSteps(weekOf: WeekOf, w: World, c: CallId, user: UserId, key: string, body: Body, appNow: Instant)
    requires c !in w.calls
    ensures var one := Next(weekOf, w, Arrive(c, user, TimerWork(key, body)));
      var two := Next(weekOf, Next(weekOf, one, LookUp(c)), Check(c, appNow));
      two == World(w.db,
        w.calls[c := Call(user, TimerWork(key, body), Checking(weekOf, w.db, user, key, body, appNow))])
  {
  }

  lemma CommitSteps(weekOf: WeekOf, w: World, c: CallId, now: Instant)
    requires c in w.calls && w.calls[c].work.TimerWork?
        && (w.calls[c].pc.Finished? || w.calls[c].pc.Aborted? || w.calls[c].pc.Checked?)
    ensures var call := w.calls[c];
      var after := Next(weekOf, Next(weekOf, Next(weekOf, w, Update(c, now)), Commit(c)), Store(c));
      var commit := CommitTimer(weekOf, w.db, call.user, call.work.key, call.work.body,
        RunningIds(w.db.entries, call.user), now);
      if !call.pc.Checked? then after == w
      else if commit.pc.Committed?
      then after.db == commit.db.(cache := StoreKey(w.db.cache, call.user, call.work.key, StartBody(call.work.body),
                                                    commit.pc.reply))
           && c in after.calls && after.calls[c].pc == Finished(commit.pc.reply)
      else after.db == commit.db && c in after.calls && after.calls[c].pc == commit.pc
  {
  }

  lemma StepsAtOnce(weekOf: WeekOf, w: World, c: CallId, user: UserId, key: string, body: Body, appNow: Instant,
                    now: Instant)
    requires c !in w.calls
    ensures var after := After(weekOf, w, TimerSteps(c, user, key, body, appNow, now));
      var once := AtOnce(weekOf, w.db, user, key, body, appNow, now);
      after.db == once.db && c in after.calls && after.calls[c].pc == once.pc
  {
    AfterSteps(weekOf, w, c, user, key, body, appNow, now);
    CheckSteps(weekOf, w, c, user, key, body, appNow);
    var one := Next(weekOf, w, Arrive(c, user, TimerWork(key, body)));
    CommitSteps(weekOf, Next(weekOf, Next(weekOf, one, LookUp(c)), Check(c, appNow)), c, now);
  }

  /** Left alone, the five steps are the one atomic request: same tables, same cache, same answer. */
  lemma UninterruptedTimer(weekOf: WeekOf, w: World, c: CallId, user: UserId, key: string, body: Body,
                           appNow: Instant, now: Instant)
    requires c !in w.calls && key != ""
    ensures var after := After(weekOf, w, TimerSteps(c, user, key, body, appNow, now));
      var whole := StartTimer(weekOf, w.db, user, Some(key), body, appNow, now);
      after.db == whole.db && c in after.calls && Tells(after.calls[c].pc, whole.outcome)
  {
    StepsAtOnce(weekOf, w, c, user, key, body, appNow, now);
    AtOnceIsAtomic(weekOf, w.db, user, key, body, appNow, now);
  }

  /** The request a manual call stands for. */
  function RequestOf(user: UserId, work: Work, now: Instant): Request
    requires !work.TimerWork?
  {
    match work
    case CreateWork(m) => CreateReq(user, m, now)
    case EditWork(id, p, canSee) => EditReq(user, id, p, canSee, now)
    case RemoveWork(id) => RemoveReq(user, id, now)
  }

  function CheckAndWrite(weekOf: WeekOf, db: Db, user: UserId, work: Work, appNow: Instant, now: Instant): Attempt {
    var pc := Precheck(weekOf, db, user, work, appNow);
    if pc.Checked? then WriteNow(weekOf, db, user, work, now) else Attempt(db, pc)
  }

  ghost predicate SameAs(weekOf: WeekOf, db: Db, a: Attempt, r: Request) {
    var whole := Handle(weekOf, db, r);
    a.db == whole.db && Tells(a.pc, whole.outcome)
  }

  lemma CreateAtOnce(weekOf: WeekOf, db: Db, user: UserId, m: Manual, appNow: Instant, now: Instant)
    ensures SameAs(weekOf, db, CheckAndWrite(weekOf, db, user, CreateWork(m), appNow, now), CreateReq(user, m, now))
  {
  }

  lemma EditAtOnce(weekOf: WeekOf, db: Db, user: UserId, id: EntryId, p: Patch, canSee: bool, appNow: Instant,
                   now: Instant)
    ensures SameAs(weekOf, db, CheckAndWrite(weekOf, db, user, EditWork(id, p, canSee), appNow, now),
        EditReq(user, id, p, canSee, now))
  {
  }

  lemma RemoveAtOnce(weekOf: WeekOf, db: Db, user: UserId, id: EntryId, appNow: Instant, now: Instant)
    ensures SameAs(weekOf, db, CheckAndWrite(weekOf, db, user, RemoveWork(id), appNow, now), RemoveReq(user, id, now))
  {
  }

  lemma TwoStepsAtOnce(weekOf: WeekOf, w: World, c: CallId, user: UserId, work: Work, appNow: Instant, now: Instant)
    requires c !in w.calls && !work.TimerWork?
    ensures var after := After(weekOf, w, [Arrive(c, user, work)] + [Check(c, appNow)] + [Write(c, now)]);
      var once := CheckAndWrite(weekOf, w.db, user, work, appNow, now);
      after.db == once.db && c in after.calls && after.calls[c].pc == once.pc
  {
    var arrive := [Arrive(c, user, work)];
    assert [] + arrive == arrive;
    Then(weekOf, w, [], arrive[0]);
    Then(weekOf, w, arrive, Check(c, appNow));
    Then(weekOf, w, arrive + [Check(c, appNow)], Write(c, now));
  }

  /** Likewise the two steps of a manual request. */
  lemma UninterruptedWrite(weekOf: WeekOf, w: World, c: CallId, user: UserId, work: Work, appNow: Instant, now: Instant)
    requires c !in w.calls && !work.TimerWork?
    ensures var after := After(weekOf, w, [Arrive(c, user, work)] + [Check(c, appNow)] + [Write(c, now)]);
      var whole := Handle(weekOf, w.db, RequestOf(user, work, now));
      after.db == whole.db && c in after.calls && Tells(after.calls[c].pc, whole.outcome)
  {
    TwoStepsAtOnce(weekOf, w, c, user, work, appNow, now);
    match work {
      case CreateWork(m) => CreateAtOnce(weekOf, w.db, user, m, appNow, now);
      case EditWork(id, p, canSee) => EditAtOnce(weekOf, w.db, user, id, p, canSee, appNow, now);
      case RemoveWork(id) => RemoveAtOnce(weekOf, w.db, user, id, appNow, now);
    }
  }

  // --- timers ------------------------------------------------------------------------------

  lemma CommitKeepsStruct(weekOf: WeekOf, db: Db, user: UserId, key: string, body: Body, seen: set<EntryId>,
                          now: Instant)
    requires Struct(db)
    ensures Struct(CommitTimer(weekOf, db, user, key, body, seen, now).db)
  {
    var attempt := CommitTimer(weekOf, db, user, key, body, seen, now);
    if attempt.pc.Committed? {
      StructAdd(StopSeen(db.entries, seen, now), db.nextId, NewTimer(user, key, body, now));
      assert Constraints(attempt.db.entries);
    }
  }

  lemma WriteKeepsStruct(weekOf: WeekOf, db: Db, user: UserId, work: Work, now: Instant)
    requires Struct(db)
    ensures Struct(WriteNow(weekOf, db, user, work, now).db)
  {
    if work.RemoveWork? { StructRemove(db, work.removed); }
  }

  lemma EventKeepsStruct(weekOf: WeekOf, w: World, ev: Event)
    requires Struct(w.db)
    ensures Struct(Next(weekOf, w, ev).db)
  {
    if Enabled(w, ev) {
      match ev {
        case Commit(c) =>
          var call := w.calls[c];
          CommitKeepsStruct(weekOf, w.db, call.user, call.work.key, call.work.body, call.pc.running, call.pc.at);
        case Write(c, now) => WriteKeepsStruct(weekOf, w.db, w.calls[c].user, w.calls[c].work, now);
        case Whole(r) => StructStep(weekOf, w.db, r);
        case _ =>
      }
    }
  }

  lemma {:induction false} EventsKeepStruct(weekOf: WeekOf, w: World, evs: seq<Event>)
    requires Struct(w.db)
    ensures Struct(After(weekOf, w, evs).db)
  {
    if evs != [] {
      EventsKeepStruct(weekOf, w, evs[..|evs| - 1]);
      EventKeepsStruct(weekOf, After(weekOf, w, evs[..|evs| - 1]), evs[|evs| - 1]);
    }
  }

  /** In every interleaving a user never has two running entries, and no (user, key) ever has two entries. */
  lemma AtMostOneTimer(weekOf: WeekOf, evs: seq<Event>)
    ensures OneRunning(After(weekOf, START, evs).db.entries) && KeysUnique(After(weekOf, START, evs).db.entries)
  {
    EventsKeepStruct(weekOf, START, evs);
  }

  predicate IsEventOf(ev: Event, c: CallId) {
    !ev.Whole? && ev.c == c
  }

  /** Some event of call `c` changed the entries. */
  ghost predicate Wrote(weekOf: WeekOf, evs: seq<Event>, c: CallId) {
    evs != [] &&
    var before := After(weekOf, START, evs[..|evs| - 1]);
    || Wrote(weekOf, evs[..|evs| - 1], c)
    || (IsEventOf(evs[|evs| - 1], c) && Next(weekOf, before, evs[|evs| - 1]).db.entries != before.db.entries)
  }

  predicate MayHaveWritten(pc: Pc) {
    pc.Committed? || pc.Finished? || pc.Written? || pc.Crashed?
  }

  lemma WritingShows(weekOf: WeekOf, w: World, ev: Event, c: CallId)
    ensures IsEventOf(ev, c) && Next(weekOf, w, ev).db.entries != w.db.entries ==>
      c in Next(weekOf, w, ev).calls && MayHaveWritten(Next(weekOf, w, ev).calls[c].pc)
    ensures c in w.calls && MayHaveWritten(w.calls[c].pc) ==>
      c in Next(weekOf, w, ev).calls && MayHaveWritten(Next(weekOf, w, ev).calls[c].pc)
  {
  }

  /** A call that has written is past its commit for good, so one that ends aborted has changed no entry at any
      point of the interleaving. */
  lemma {:induction false} AbortedNeverWrote(weekOf: WeekOf, evs: seq<Event>, c: CallId)
    ensures var w := After(weekOf, START, evs); Wrote(weekOf, evs, c) ==> c in w.calls && MayHaveWritten(w.calls[c].pc)
    ensures var w := After(weekOf, START, evs); c in w.calls && w.calls[c].pc.Aborted? ==> !Wrote(weekOf, evs, c)
  {
    if evs != [] {
      AbortedNeverWrote(weekOf, evs[..|evs| - 1], c);
      WritingShows(weekOf, After(weekOf, START, evs[..|evs| - 1]), evs[|evs| - 1], c);
    }
  }

  /** With every other guard passed, the running-timer index refuses a commit exactly when a timer of the user
      runs that the request's UPDATE did not see. */
  lemma RaceIff(db: Db, user: UserId, key: string, body: Body, seen: set<EntryId>, now: Instant)
    requires Struct(db)
    ensures OneRunning(StopSeen(db.entries, seen, now)[db.nextId := NewTimer(user, key, body, now)])
      <==> RunningIds(db.entries, user) <= seen
  {
    var stopped := StopSeen(db.entries, seen, now);
    var entries := stopped[db.nextId := NewTimer(user, key, body, now)];
    if id :| id in RunningIds(db.entries, user) && id !in seen {
      assert id in entries && entries[id].status.Running? && entries[id].user == entries[db.nextId].user;
    }
    if RunningIds(db.entries, user) <= seen {
      forall i, j | i in entries && j in entries && i != j && entries[i].status.Running? && entries[j].status.Running?
        ensures entries[i].user != entries[j].user
      {
        if i != db.nextId && j != db.nextId { assert db.entries[i].user != db.entries[j].user; }
        else if i != db.nextId { assert i !in RunningIds(db.entries, user); }
        else { assert j !in RunningIds(db.entries, user); }
      }
    }
  }

  /** Run as one atomic step, a timer request sees every running row and never races: only a reused key can
      turn its insert away. */
  lemma AtomicStartNeverRaces(db: Db, user: UserId, key: string, body: Body, now: Instant)
    requires Struct(db)
    ensures OneRunning(StopRunning(db.entries, user, None, now)[db.nextId := NewTimer(user, key, body, now)])
  {
    RaceIff(db, user, key, body, RunningIds(db.entries, user), now);
    assert StopRunning(db.entries, user, None, now) == StopSeen(db.entries, RunningIds(db.entries, user), now);
  }

  // --- locked weeks ------------------------------------------------------------------------

  lemma StopSeenJoinsNothing(weekOf: WeekOf, entries: Entries, seen: set<EntryId>, now: Instant, k: PeriodKey)
    ensures NoneJoins(weekOf, entries, StopSeen(entries, seen, now), k)
  {
  }

  lemma AddJoinsNothing(weekOf: WeekOf, a: Entries, b: Entries, id: EntryId, e: Entry, k: PeriodKey)
    requires NoneJoins(weekOf, a, b, k) && KeyOf(weekOf, e) != k
    ensures NoneJoins(weekOf, a, b[id := e], k)
  {
  }

  lemma CommitJoinsNothing(weekOf: WeekOf, db: Db, user: UserId, key: string, body: Body, seen: set<EntryId>,
                           now: Instant, k: PeriodKey)
    requires IsLocked(db.periods, k)
    ensures NoneJoins(weekOf, db.entries, CommitTimer(weekOf, db, user, key, body, seen, now).db.entries, k)
  {
    var attempt := CommitTimer(weekOf, db, user, key, body, seen, now);
    if attempt.pc.Committed? {
      StopSeenJoinsNothing(weekOf, db.entries, seen, now, k);
      AddJoinsNothing(weekOf, db.entries, StopSeen(db.entries, seen, now), db.nextId, NewTimer(user, key, body, now),
        k);
    }
  }

  lemma WriteJoinsNothing(weekOf: WeekOf, db: Db, user: UserId, work: Work, now: Instant, k: PeriodKey)
    requires IsLocked(db.periods, k)
    ensures NoneJoins(weekOf, db.entries, WriteNow(weekOf, db, user, work, now).db.entries, k)
  {
  }

  /** The insert-and-move half of the freeze survives every interleaving with a concurrent submit: whatever was
      checked when, no event puts an entry into a week that is locked at that moment. */
  lemma LockedWeekTakesNothingInConcurrently(weekOf: WeekOf, evs: seq<Event>, ev: Event, k: PeriodKey)
    requires IsLocked(After(weekOf, START, evs).db.periods, k)
    ensures var w := After(weekOf, START, evs); NoneJoins(weekOf, w.db.entries, Next(weekOf, w, ev).db.entries, k)
  {
    var w := After(weekOf, START, evs);
    EventsKeepStruct(weekOf, START, evs);
    assert w.db.nextId !in w.db.entries;
    if Enabled(w, ev) {
      match ev {
        case Commit(c) =>
          var call := w.calls[c];
          CommitJoinsNothing(weekOf, w.db, call.user, call.work.key, call.work.body, call.pc.running, call.pc.at, k);
        case Write(c, now) => WriteJoinsNothing(weekOf, w.db, w.calls[c].user, w.calls[c].work, now, k);
        case Whole(r) => StepFreezes(weekOf, w.db, r, k);
        case _ =>
      }
    }
  }
}
