/** Every request that writes to the timesheet tables, as a function from database to database. */
module Requests {
  import opened Tables
  import opened PeriodRows

  datatype Error =
    | ValidationFailed | NotFound | EntryLocked | PeriodLocked | IdempotencyConflict | Forbidden
    | DbFault  // a database error the handler passes on unmapped

  datatype Outcome = Done | Replied(reply: Reply) | Failed(error: Error)

  datatype Result = Result(db: Db, outcome: Outcome)

  function Fail(db: Db, error: Error): Result {
    Result(db, Failed(error))
  }

  // --- timers ------------------------------------------------------------------------------

  datatype CacheLookup = Miss | Hit(reply: Reply) | Conflict

  function LookupKey(cache: map<CacheKey, Cached>, user: UserId, key: string, body: TimerBody): CacheLookup {
    var k := CacheKey(user, key);
    if k !in cache then Miss
    else if cache[k].body != body then Conflict
    else Hit(cache[k].reply)
  }

  /** INSERT ... ON CONFLICT DO NOTHING. */
  function StoreKey(cache: map<CacheKey, Cached>, user: UserId, key: string, body: TimerBody,
                    reply: Reply): map<CacheKey, Cached> {
    var k := CacheKey(user, key);
    if k in cache then cache else cache[k := Cached(body, reply)]
  }

  function Stopped(e: Entry, notes: Option<string>, now: Instant): Entry {
    e.(endAt := Some(now), status := Draft, updatedAt := now, notes := if notes.Some? then notes else e.notes)
  }

  function StopRunning(entries: Entries, user: UserId, notes: Option<string>, now: Instant): Entries {
    map id | id in entries ::
      if entries[id].user == user && entries[id].status.Running? then Stopped(entries[id], notes, now) else entries[id]
  }

  function NewTimer(user: UserId, key: string, body: Body, now: Instant): Entry {
    Entry(user, body.project, body.task, body.notes, now, None, Running, true, body.mood, Some(key), now, [])
  }

  /** start and switch: one transaction stops whatever runs and inserts the new timer. `appNow` is the
      server's clock, which the precheck reads; `now` is the database's, which the rows and the trigger use. */
  function StartTimer(weekOf: WeekOf, db: Db, user: UserId, key: Option<string>, body: Body, appNow: Instant,
                      now: Instant): Result {
    if key.None? || key.value == "" then Fail(db, ValidationFailed)
    else
      match LookupKey(db.cache, user, key.value, StartBody(body))
      case Hit(reply) => Result(db, Replied(reply))
      case Conflict => Fail(db, IdempotencyConflict)
      case Miss =>
        if !Writable(weekOf, db.periods, user, appNow) then Fail(db, PeriodLocked)
        else
          var stopped := StopRunning(db.entries, user, None, now);
          if !Constraints(stopped) then Fail(db, DbFault)
          else if !Writable(weekOf, db.periods, user, now) then Fail(db, PeriodLocked)  // trigger
          else
            var entry := NewTimer(user, key.value, body, now);
            var entries := stopped[db.nextId := entry];
            if !OneRunning(entries) || !KeysUnique(entries) then Fail(db, IdempotencyConflict)
            else
              var reply := Row(db.nextId, entry);
              var cache := StoreKey(db.cache, user, key.value, StartBody(body), reply);
              Result(Db(entries, db.periods, cache, db.nextId + 1),
                     Replied(reply))
  }

  /** The user's running entry, if any; the unique index leaves at most one. */
  ghost function RunningId(entries: Entries, user: UserId): Option<EntryId> {
    if exists id :: id in entries && entries[id].user == user && entries[id].status.Running? then
      var id :| id in entries && entries[id].user == user && entries[id].status.Running?;
      Some(id)
    else None
  }

  ghost function StopTimer(db: Db, user: UserId, key: Option<string>, notes: Option<string>, now: Instant): Result {
    if key.None? || key.value == "" then Fail(db, ValidationFailed)
    else
      match LookupKey(db.cache, user, key.value, StopBody(notes))
      case Hit(reply) => Result(db, Replied(reply))
      case Conflict => Fail(db, IdempotencyConflict)
      case Miss =>
        var stopped := StopRunning(db.entries, user, notes, now);
        if !Constraints(stopped) then Fail(db, DbFault)
        else
          var id := RunningId(db.entries, user);
          var reply := if id.Some? then Row(id.value, stopped[id.value]) else NoTimer;
          Result(db.(entries := stopped, cache := StoreKey(db.cache, user, key.value, StopBody(notes), reply)),
            Replied(reply))
  }

  /** The hourly job: running entries untouched for a day are closed where they were last touched. */
  function Abandoned(e: Entry, now: Instant): bool {
    e.status.Running? && e.updatedAt < now - DAY
  }

  const ABANDONED_NOTE := " [abandoned by timer-stuck-cleanup]"

  function CloseAbandoned(entries: Entries, now: Instant): Entries {
    map id | id in entries ::
      var e := entries[id];
      if Abandoned(e, now)
      then e.(status := Draft, endAt := Some(e.updatedAt),
              notes := Some((if e.notes.Some? then e.notes.value else "") + ABANDONED_NOTE))
      else e
  }

  function Cleanup(db: Db, now: Instant): Result {
    var entries := CloseAbandoned(db.entries, now);
    if Constraints(entries) then Result(db.(entries := entries), Done) else Fail(db, DbFault)
  }

  // --- submit ------------------------------------------------------------------------------

  function MarkSubmitted(e: Entry, user: UserId, now: Instant): Entry {
    e.(status := Status.Submitted, updatedAt := now, log := e.log + [Transition(Draft, Status.Submitted, user, None)])
  }

  function SubmitEntries(entries: Entries, ids: set<EntryId>, user: UserId, now: Instant): Entries {
    map id | id in entries ::
      if id in ids && entries[id].status.Draft? then MarkSubmitted(entries[id], user, now) else entries[id]
  }

  /** The upsert that stamps the submission before the status is recomputed. */
  function StampSubmission(periods: Periods, k: PeriodKey, user: UserId, now: Instant): Periods {
    if k !in periods then periods[k := Period(Open, Some(now), Some(user), None, None, None)]
    else
      var p := periods[k];
      periods[k := p.(submittedAt := if p.submittedAt.None? then Some(now) else p.submittedAt,
                      submittedBy := if p.submittedBy.None? then Some(user) else p.submittedBy)]
  }

  function WeekSet(weekOf: WeekOf, entries: Entries, k: PeriodKey): set<EntryId> {
    set id | id in entries && KeyOf(weekOf, entries[id]) == k
  }

  /** make_date has no year 0, and the CHECK on iso_week refuses weeks outside 1..53. */
  predicate Insertable(w: Week) {
    OnCalendar(w) && w.isoYear != 0
  }

  /** The week a submission is for, and the entries it looks at. `token` is the optional override. */
  function SubmitTarget(weekOf: WeekOf, e: Entry, wholeWeek: bool, token: Option<Week>): PeriodKey {
    if wholeWeek && token.Some? then PeriodKey(e.user, token.value) else KeyOf(weekOf, e)
  }

  function SubmitIds(weekOf: WeekOf, entries: Entries, id: EntryId, k: PeriodKey, wholeWeek: bool): set<EntryId> {
    if wholeWeek then WeekSet(weekOf, entries, k) else {id}
  }

  function Submit(weekOf: WeekOf, db: Db, user: UserId, id: EntryId, wholeWeek: bool, token: Option<Week>,
                  now: Instant): Result {
    if id !in db.entries || db.entries[id].user != user then Fail(db, NotFound)
    else
      var k := SubmitTarget(weekOf, db.entries[id], wholeWeek, token);
      var entries := SubmitEntries(db.entries, SubmitIds(weekOf, db.entries, id, k, wholeWeek), user, now);
      if !Insertable(k.week) then Fail(db, DbFault)
      else
        var periods := RecomputeMany(weekOf, entries, StampSubmission(db.periods, k, user, now), {k}, now);
        Result(db.(entries := entries, periods := periods), Done)
  }

  // --- manual entries ----------------------------------------------------------------------

  /** The app's own overlap query; unlike the exclusion it takes a running entry to last for ever. */
  predicate PreOverlap(e: Entry, user: UserId, startAt: Instant, endAt: Instant) {
    && e.user == user && e.startAt < endAt
    && (e.endAt.None? || (startAt < e.endAt.value && e.startAt < e.endAt.value))
  }

  datatype Manual = Manual(project: int, task: Option<int>, startAt: Instant, endAt: Instant,
                           notes: Option<string>, billable: Option<bool>)

  function ManualEntry(user: UserId, m: Manual, now: Instant): Entry {
    Entry(user, m.project, m.task, m.notes, m.startAt, Some(m.endAt), Draft,
          if m.billable.Some? then m.billable.value else true, None, None, now, [])
  }

  function CreateManual(weekOf: WeekOf, db: Db, user: UserId, m: Manual, now: Instant): Result {
    if m.endAt <= m.startAt || m.endAt - m.startAt > DAY then Fail(db, ValidationFailed)
    else if exists id :: id in db.entries && PreOverlap(db.entries[id], user, m.startAt, m.endAt)
    then Fail(db, ValidationFailed)
    else if !Writable(weekOf, db.periods, user, m.startAt) then Fail(db, PeriodLocked)
    else
      var entries := db.entries[db.nextId := ManualEntry(user, m, now)];
      if !Constraints(entries) then Fail(db, DbFault)
      else Result(db.(entries := entries, nextId := db.nextId + 1), Done)
  }

  /** A field that a PATCH may leave out. */
  datatype Patch = Patch(notes: Option<Option<string>>, startAt: Option<Instant>, endAt: Option<Instant>,
                         project: Option<int>, task: Option<Option<int>>, billable: Option<bool>)

  const NO_CHANGE := Patch(None, None, None, None, None, None)

  function Patched(e: Entry, p: Patch, now: Instant): Entry {
    e.(notes := if p.notes.Some? then p.notes.value else e.notes,
       startAt := if p.startAt.Some? then p.startAt.value else e.startAt,
       endAt := if p.endAt.Some? then p.endAt else e.endAt,
       project := if p.project.Some? then p.project.value else e.project,
       task := if p.task.Some? then p.task.value else e.task,
       billable := if p.billable.Some? then p.billable.value else e.billable,
       updatedAt := now)
  }

  /** `canSee` is the RBAC verdict on the new project. */
  function Edit(weekOf: WeekOf, db: Db, user: UserId, id: EntryId, p: Patch, canSee: bool, now: Instant): Result {
    if id !in db.entries || db.entries[id].user != user then Fail(db, NotFound)
    else
      var e := db.entries[id];
      var next := Patched(e, p, now);
      if LockedStatus(e.status) then Fail(db, EntryLocked)
      else if (p.startAt.Some? || p.endAt.Some?)
        && !Writable(weekOf, db.periods, user, next.startAt)
      then Fail(db, PeriodLocked)
      else if next.project != e.project && !canSee then Fail(db, Forbidden)
      else if p == NO_CHANGE then Result(db, Done)
      else if next.startAt != e.startAt && !Writable(weekOf, db.periods, user, next.startAt)
      then Fail(db, PeriodLocked)  // trigger
      else if !Constraints(db.entries[id := next]) then Fail(db, DbFault)
      else Result(db.(entries := db.entries[id := next]), Done)
  }

  function Remove(weekOf: WeekOf, db: Db, user: UserId, id: EntryId): Result {
    if id !in db.entries || db.entries[id].user != user then Fail(db, NotFound)
    else if LockedStatus(db.entries[id].status) then Fail(db, EntryLocked)
    else if !Writable(weekOf, db.periods, user, db.entries[id].startAt) then Fail(db, PeriodLocked)
    else Result(db.(entries := db.entries - {id}), Done)
  }

  // --- approvals ---------------------------------------------------------------------------

  /** The actor of the latest history row that says manager_approved. */
  function Stage1Actor(log: seq<Transition>): Option<UserId> {
    if log == [] then None
    else if log[|log| - 1].toStatus.ManagerApproved? then Some(log[|log| - 1].actor)
    else Stage1Actor(log[..|log| - 1])
  }

  /** What a batch does to each of its entries. */
  datatype Action = Action(fromStatus: Status, toStatus: Status, actor: UserId, reason: Option<string>, now: Instant)

  function ManagerVerdict(actor: UserId, approve: bool, reason: Option<string>, now: Instant): Action {
    Action(Status.Submitted, if approve then ManagerApproved else Rejected, actor, reason, now)
  }

  function FinalVerdict(actor: UserId, approve: bool, reason: Option<string>, now: Instant): Action {
    Action(ManagerApproved, if approve then FinalApproved else Rejected, actor, reason, now)
  }

  /** Stage 2 refuses the actor of the latest stage-1 row; stage 1 has no such check. */
  predicate Blocked(a: Action, e: Entry) {
    a.fromStatus.ManagerApproved? && Stage1Actor(e.log) == Some(a.actor)
  }

  /** The UPDATE matches only `fromStatus`; the history row is written whether or not it matched. */
  function Touched(a: Action, e: Entry): Entry {
    var log := e.log + [Transition(a.fromStatus, a.toStatus, a.actor, a.reason)];
    if e.status == a.fromStatus then e.(status := a.toStatus, updatedAt := a.now, log := log) else e.(log := log)
  }

  datatype Batch = Batch(entries: Entries, stop: Option<Error>)

  /** One entry after another; an id with no row stops the batch (the history row's foreign key), as does
      a stage-2 actor who was stage 1. What was written before the stop stays. */
  function RunBatch(entries: Entries, ids: seq<EntryId>, a: Action): Batch {
    if ids == [] then Batch(entries, None)
    else
      var before := RunBatch(entries, ids[..|ids| - 1], a);
      var id := ids[|ids| - 1];
      if before.stop.Some? then before
      else if id !in before.entries then before.(stop := Some(DbFault))
      else if Blocked(a, before.entries[id]) then before.(stop := Some(Forbidden))
      else Batch(before.entries[id := Touched(a, before.entries[id])], None)
  }

  /** The distinct weeks recomputeAffectedPeriods visits. */
  function AffectedWeeks(weekOf: WeekOf, entries: Entries, ids: seq<EntryId>): set<PeriodKey> {
    set id | id in ids && id in entries :: KeyOf(weekOf, entries[id])
  }

  function Approval(weekOf: WeekOf, db: Db, ids: seq<EntryId>, a: Action): Result {
    var batch := RunBatch(db.entries, ids, a);
    if batch.stop.Some? then Fail(db.(entries := batch.entries), batch.stop.value)
    else
      var periods := RecomputeMany(weekOf, batch.entries, db.periods, AffectedWeeks(weekOf, batch.entries, ids), a.now);
      Result(db.(entries := batch.entries, periods := periods), Done)
  }

  predicate ReasonMissing(approve: bool, reason: Option<string>) {
    !approve && (reason.None? || |reason.value| < 10)
  }

  function ManagerAction(weekOf: WeekOf, db: Db, actor: UserId, ids: seq<EntryId>, approve: bool,
                         reason: Option<string>, now: Instant): Result {
    if ids == [] || ReasonMissing(approve, reason) then Fail(db, ValidationFailed)
    else Approval(weekOf, db, ids, ManagerVerdict(actor, approve, reason, now))
  }

  function FinalAction(weekOf: WeekOf, db: Db, actor: UserId, ids: seq<EntryId>, approve: bool,
                       reason: Option<string>, now: Instant): Result {
    if ids == [] || ReasonMissing(approve, reason) then Fail(db, ValidationFailed)
    else Approval(weekOf, db, ids, FinalVerdict(actor, approve, reason, now))
  }

  /** Back to draft, with the history row the handler writes: `from` is what it claims the entry was. */
  function Unlocked(e: Entry, from: Status, actor: UserId, reason: string, now: Instant): Entry {
    e.(status := Draft, updatedAt := now, log := e.log + [Transition(from, Draft, actor, Some(reason))])
  }

  /** The per-entry unlock takes an entry from any status; on a running one the CHECK on end_at refuses. */
  function AdminUnlock(weekOf: WeekOf, db: Db, actor: UserId, id: EntryId, reason: string, now: Instant): Result {
    if |reason| < 20 then Fail(db, ValidationFailed)
    else if id !in db.entries || db.entries[id].endAt.None? then Fail(db, DbFault)
    else
      var entries := db.entries[id := Unlocked(db.entries[id], FinalApproved, actor, reason, now)];
      var periods := RecomputeMany(weekOf, entries, db.periods, {KeyOf(weekOf, entries[id])}, now);
      Result(db.(entries := entries, periods := periods), Done)
  }

  function UnlockEntries(weekOf: WeekOf, entries: Entries, k: PeriodKey, actor: UserId, reason: string,
                         now: Instant): Entries {
    map id | id in entries ::
      var e := entries[id];
      if KeyOf(weekOf, e) == k && LockedStatus(e.status) then Unlocked(e, e.status, actor, reason, now) else e
  }

  function UnlockWeek(weekOf: WeekOf, db: Db, actor: UserId, k: PeriodKey, reason: string, now: Instant): Result {
    if |reason| < 20 then Fail(db, ValidationFailed)
    else
      var entries := UnlockEntries(weekOf, db.entries, k, actor, reason, now);
      Result(db.(entries := entries, periods := RecomputeMany(weekOf, entries, db.periods, {k}, now)), Done)
  }

  // --- runs --------------------------------------------------------------------------------

  datatype Request =
    | StartReq(user: UserId, key: Option<string>, body: Body, appNow: Instant, now: Instant)
    | StopReq(user: UserId, key: Option<string>, notes: Option<string>, now: Instant)
    | SwitchReq(user: UserId, key: Option<string>, body: Body, appNow: Instant, now: Instant)
    | CleanupReq(now: Instant)
    | SubmitReq(user: UserId, id: EntryId, wholeWeek: bool, token: Option<Week>, now: Instant)
    | CreateReq(user: UserId, manual: Manual, now: Instant)
    | EditReq(user: UserId, id: EntryId, patch: Patch, canSee: bool, now: Instant)
    | RemoveReq(user: UserId, id: EntryId, now: Instant)
    | ManagerReq(actor: UserId, ids: seq<EntryId>, approve: bool, why: Option<string>, now: Instant)
    | FinalReq(actor: UserId, ids: seq<EntryId>, approve: bool, why: Option<string>, now: Instant)
    | AdminUnlockReq(actor: UserId, id: EntryId, reason: string, now: Instant)
    | UnlockWeekReq(actor: UserId, k: PeriodKey, reason: string, now: Instant)

  ghost function Handle(weekOf: WeekOf, db: Db, r: Request): Result {
    match r
    case StartReq(user, key, body, appNow, now) => StartTimer(weekOf, db, user, key, body, appNow, now)
    case StopReq(user, key, notes, now) => StopTimer(db, user, key, notes, now)
    case SwitchReq(user, key, body, appNow, now) => StartTimer(weekOf, db, user, key, body.(mood := None), appNow, now)
    case CleanupReq(now) => Cleanup(db, now)
    case SubmitReq(user, id, wholeWeek, token, now) => Submit(weekOf, db, user, id, wholeWeek, token, now)
    case CreateReq(user, manual, now) => CreateManual(weekOf, db, user, manual, now)
    case EditReq(user, id, patch, canSee, now) => Edit(weekOf, db, user, id, patch, canSee, now)
    case RemoveReq(user, id, _) => Remove(weekOf, db, user, id)
    case ManagerReq(actor, ids, approve, why, now) => ManagerAction(weekOf, db, actor, ids, approve, why, now)
    case FinalReq(actor, ids, approve, why, now) => FinalAction(weekOf, db, actor, ids, approve, why, now)
    case AdminUnlockReq(actor, id, reason, now) => AdminUnlock(weekOf, db, actor, id, reason, now)
    case UnlockWeekReq(actor, k, reason, now) => UnlockWeek(weekOf, db, actor, k, reason, now)
  }

  ghost function Step(weekOf: WeekOf, db: Db, r: Request): Db {
    Handle(weekOf, db, r).db
  }

  const EMPTY := Db(map[], map[], map[], 0)

  /** The database after a run of requests from empty tables. */
  ghost function Run(weekOf: WeekOf, rs: seq<Request>): Db {
    if rs == [] then EMPTY else Step(weekOf, Run(weekOf, rs[..|rs| - 1]), rs[|rs| - 1])
  }
}
