/** What a stored lock stands for, over every run. */
module LockSoundness {
  import opened Tables
  import opened Rollup
  import opened PeriodRows
  import opened Requests
  import opened Batches

  // --- invariants --------------------------------------------------------------------------

  /** The table guards, with fresh ids ahead and every running entry born from start or switch. */
  predicate Struct(db: Db) {
    && Constraints(db.entries)
    && (forall id :: id in db.entries ==> id < db.nextId)
    && (forall id :: id in db.entries && db.entries[id].status.Running? ==> db.entries[id].key.Some?)
  }

  predicate Filed(s: Status) {
    LockedStatus(s) || s.Rejected?
  }

  /** A stored lock names exactly the lowest stage of its week's filed entries. */
  predicate Exact(weekOf: WeekOf, db: Db, k: PeriodKey) {
    IsLocked(db.periods, k) ==> db.periods[k].status == FiledRollup(weekOf, db.entries, k)
  }

  /** No filed entry of a locked week is below the stored status, unless it was rejected. */
  predicate Floor(weekOf: WeekOf, db: Db, k: PeriodKey) {
    IsLocked(db.periods, k) ==>
      forall id :: id in db.entries && KeyOf(weekOf, db.entries[id]) == k && LockedStatus(db.entries[id].status)
        ==> PeriodStage(db.periods[k].status) <= Stage(db.entries[id].status)
  }

  /** A draft in a locked week was born as a timer: only start and switch give an entry a key. */
  predicate TimerDrafts(weekOf: WeekOf, db: Db, k: PeriodKey) {
    IsLocked(db.periods, k) ==>
      forall id :: id in db.entries && KeyOf(weekOf, db.entries[id]) == k && db.entries[id].status.Draft?
        ==> db.entries[id].key.Some?
  }

  /** What holds in every run. */
  ghost predicate Base(weekOf: WeekOf, db: Db) {
    && Struct(db)
    && (forall k :: Floor(weekOf, db, k))
    && (forall k :: TimerDrafts(weekOf, db, k))
  }

  /** What holds in every run whose approval batches run through. */
  ghost predicate Sound(weekOf: WeekOf, db: Db) {
    Base(weekOf, db) && forall k :: Exact(weekOf, db, k)
  }

  // --- which weeks a request recomputes ----------------------------------------------------

  ghost function Recomputed(weekOf: WeekOf, db: Db, r: Request): set<PeriodKey> {
    if !Handle(weekOf, db, r).outcome.Done? then {}
    else
      match r
      case SubmitReq(_, id, wholeWeek, token, _) =>
        if id in db.entries then {SubmitTarget(weekOf, db.entries[id], wholeWeek, token)} else {}
      case ManagerReq(_, ids, _, _, _) => AffectedWeeks(weekOf, Step(weekOf, db, r).entries, ids)
      case FinalReq(_, ids, _, _, _) => AffectedWeeks(weekOf, Step(weekOf, db, r).entries, ids)
      case AdminUnlockReq(_, id, _, _) => if id in db.entries then {KeyOf(weekOf, db.entries[id])} else {}
      case UnlockWeekReq(_, k, _, _) => {k}
      case _ => {}
  }

  predicate Quiet(r: Request) {
    !(r.SubmitReq? || r.ManagerReq? || r.FinalReq? || r.AdminUnlockReq? || r.UnlockWeekReq?)
  }

  /** Timers, manual entries, edits and deletions never touch the stored periods. */
  lemma QuietPeriods(weekOf: WeekOf, db: Db, r: Request)
    requires Quiet(r)
    ensures Step(weekOf, db, r).periods == db.periods
  {
    match r {
      case StartReq(user, key, body, appNow, now) =>
      case StopReq(user, key, notes, now) =>
      case SwitchReq(user, key, body, appNow, now) =>
      case CleanupReq(now) =>
      case CreateReq(user, manual, now) =>
      case EditReq(user, id, patch, canSee, now) =>
      case RemoveReq(user, id, _) =>
    }
  }

  predicate Recompute(weekOf: WeekOf, before: Periods, after: Db, keys: set<PeriodKey>) {
    && (forall k :: k in keys ==> StatusOf(after.periods, k) == RollupOf(weekOf, after.entries, k))
    && (forall k :: k !in keys && k in after.periods ==> k in before && after.periods[k] == before[k])
    && (forall k :: k !in keys && k in before ==> k in after.periods)
  }

  lemma ApprovalPeriods(weekOf: WeekOf, db: Db, ids: seq<EntryId>, a: Action)
    ensures var r := Approval(weekOf, db, ids, a);
      Recompute(weekOf, db.periods, r.db, if r.outcome.Done? then AffectedWeeks(weekOf, r.db.entries, ids) else {})
  {
    var after := Approval(weekOf, db, ids, a).db;
    RecomputeIsRollup(weekOf, after.entries, db.periods, AffectedWeeks(weekOf, after.entries, ids), a.now);
  }

  lemma SubmitPeriods(weekOf: WeekOf, db: Db, r: Request)
    requires r.SubmitReq?
    ensures Recompute(weekOf, db.periods, Step(weekOf, db, r), Recomputed(weekOf, db, r))
  {
    if Handle(weekOf, db, r).outcome.Done? {
      var k := SubmitTarget(weekOf, db.entries[r.id], r.wholeWeek, r.token);
      RecomputeIsRollup(weekOf, Step(weekOf, db, r).entries, StampSubmission(db.periods, k, r.user, r.now), {k}, r.now);
    }
  }

  /** A request recomputes some weeks from the entries it leaves, and touches no other stored row. */
  lemma StepPeriods(weekOf: WeekOf, db: Db, r: Request)
    ensures Recompute(weekOf, db.periods, Step(weekOf, db, r), Recomputed(weekOf, db, r))
  {
    if Quiet(r) {
      QuietPeriods(weekOf, db, r);
    } else {
      match r {
        case SubmitReq(_, _, _, _, _) => SubmitPeriods(weekOf, db, r);
        case ManagerReq(actor, ids, approve, why, now) =>
          ApprovalPeriods(weekOf, db, ids, ManagerVerdict(actor, approve, why, now));
        case FinalReq(actor, ids, approve, why, now) =>
          ApprovalPeriods(weekOf, db, ids, FinalVerdict(actor, approve, why, now));
        case AdminUnlockReq(_, id, _, now) =>
          var after := Step(weekOf, db, r);
          if id in db.entries {
            RecomputeIsRollup(weekOf, after.entries, db.periods, {KeyOf(weekOf, db.entries[id])}, now);
          }
        case UnlockWeekReq(_, k, _, now) =>
          RecomputeIsRollup(weekOf, Step(weekOf, db, r).entries, db.periods, {k}, now);
      }
    }
  }

  // --- structure ---------------------------------------------------------------------------

  /** Rows that keep owner, range, key and whether they run keep every guard. */
  lemma ConstraintsFrame(a: Entries, b: Entries)
    requires Constraints(a) && b.Keys <= a.Keys
    requires forall id :: id in b ==>
      a[id].(status := b[id].status, updatedAt := b[id].updatedAt, log := b[id].log) == b[id]
      && (a[id].status.Running? <==> b[id].status.Running?)
    ensures Constraints(b)
  {
    assert RowsWellFormed(b);
    forall i, j | i in b && j in b && i != j ensures !Overlap(b[i], b[j]) {
      assert !Overlap(a[i], a[j]);
    }
    assert OneRunning(b);
    assert KeysUnique(b);
  }

  lemma StructBatch(db: Db, ids: seq<EntryId>, act: Action)
    requires Struct(db) && Verdict(act)
    ensures Struct(db.(entries := RunBatch(db.entries, ids, act).entries))
  {
    var b := RunBatch(db.entries, ids, act).entries;
    forall id | id in db.entries
      ensures b.Keys == db.entries.Keys
        && b[id] == db.entries[id].(status := b[id].status, updatedAt := b[id].updatedAt, log := b[id].log)
        && (b[id].status.Running? <==> db.entries[id].status.Running?)
    {
      BatchTouches(db.entries, ids, act, id);
    }
    if db.entries == map[] {
      BatchKeys(db.entries, ids, act);
    }
    ConstraintsFrame(db.entries, b);
  }

  lemma BatchKeys(entries: Entries, ids: seq<EntryId>, act: Action)
    ensures RunBatch(entries, ids, act).entries.Keys == entries.Keys
  {
  }

  /** A running entry overlaps nothing, so only the two unique indexes can refuse it. */
  lemma StructAdd(stopped: Entries, id: EntryId, e: Entry)
    requires Constraints(stopped) && id !in stopped && e.status.Running? && e.endAt.None?
    requires OneRunning(stopped[id := e]) && KeysUnique(stopped[id := e])
    ensures Constraints(stopped[id := e])
  {
    var entries := stopped[id := e];
    assert RowsWellFormed(entries);
    forall i, j | i in entries && j in entries && i != j ensures !Overlap(entries[i], entries[j]) {
      if i != id && j != id { assert !Overlap(stopped[i], stopped[j]); }
    }
  }

  lemma StructStart(weekOf: WeekOf, db: Db, user: UserId, key: Option<string>, body: Body, appNow: Instant,
                    now: Instant)
    requires Struct(db)
    ensures Struct(StartTimer(weekOf, db, user, key, body, appNow, now).db)
  {
    var stopped := StopRunning(db.entries, user, None, now);
    var after := StartTimer(weekOf, db, user, key, body, appNow, now).db;
    if after != db {
      StructAdd(stopped, db.nextId, NewTimer(user, key.value, body, now));
      assert Constraints(after.entries);
    }
  }

  lemma StructCreate(weekOf: WeekOf, db: Db, user: UserId, m: Manual, now: Instant)
    requires Struct(db)
    ensures Struct(CreateManual(weekOf, db, user, m, now).db)
  {
  }

  lemma StructEdit(weekOf: WeekOf, db: Db, user: UserId, id: EntryId, p: Patch, canSee: bool, now: Instant)
    requires Struct(db)
    ensures Struct(Edit(weekOf, db, user, id, p, canSee, now).db)
  {
  }

  lemma StructStop(weekOf: WeekOf, db: Db, r: Request)
    requires Struct(db) && (r.StopReq? || r.CleanupReq?)
    ensures Struct(Step(weekOf, db, r))
  {
  }

  lemma StructSubmit(db: Db, ids: set<EntryId>, user: UserId, now: Instant)
    requires Struct(db)
    ensures Struct(db.(entries := SubmitEntries(db.entries, ids, user, now)))
  {
    ConstraintsFrame(db.entries, SubmitEntries(db.entries, ids, user, now));
  }

  lemma StructRemove(db: Db, id: EntryId)
    requires Struct(db)
    ensures Struct(db.(entries := db.entries - {id}))
  {
    ConstraintsFrame(db.entries, db.entries - {id});
  }

  lemma StructUnlock(db: Db, id: EntryId, from: Status, actor: UserId, reason: string, now: Instant)
    requires Struct(db) && id in db.entries && db.entries[id].endAt.Some?
    ensures Struct(db.(entries := db.entries[id := Unlocked(db.entries[id], from, actor, reason, now)]))
  {
    ConstraintsFrame(db.entries, db.entries[id := Unlocked(db.entries[id], from, actor, reason, now)]);
  }

  lemma StructUnlockWeek(weekOf: WeekOf, db: Db, k: PeriodKey, actor: UserId, reason: string, now: Instant)
    requires Struct(db)
    ensures Struct(db.(entries := UnlockEntries(weekOf, db.entries, k, actor, reason, now)))
  {
    ConstraintsFrame(db.entries, UnlockEntries(weekOf, db.entries, k, actor, reason, now));
  }

  lemma StructPeriods(db: Db, periods: Periods)
    requires Struct(db)
    ensures Struct(db.(periods := periods))
  {
  }

  lemma StructSubmitReq(weekOf: WeekOf, db: Db, r: Request)
    requires Struct(db) && r.SubmitReq?
    ensures Struct(Step(weekOf, db, r))
  {
    var after := Step(weekOf, db, r);
    if Handle(weekOf, db, r).outcome.Done? {
      var k := SubmitTarget(weekOf, db.entries[r.id], r.wholeWeek, r.token);
      StructSubmit(db, SubmitIds(weekOf, db.entries, r.id, k, r.wholeWeek), r.user, r.now);
      StructPeriods(db.(entries := after.entries), after.periods);
    }
  }

  lemma StructRemoveReq(weekOf: WeekOf, db: Db, r: Request)
    requires Struct(db) && r.RemoveReq?
    ensures Struct(Step(weekOf, db, r))
  {
    StructRemove(db, r.id);
  }

  lemma StructAdminUnlock(weekOf: WeekOf, db: Db, r: Request)
    requires Struct(db) && r.AdminUnlockReq?
    ensures Struct(Step(weekOf, db, r))
  {
    var after := Step(weekOf, db, r);
    if Handle(weekOf, db, r).outcome.Done? {
      StructUnlock(db, r.id, FinalApproved, r.actor, r.reason, r.now);
      StructPeriods(db.(entries := after.entries), after.periods);
    }
  }

  lemma StructUnlockWeekReq(weekOf: WeekOf, db: Db, r: Request)
    requires Struct(db) && r.UnlockWeekReq?
    ensures Struct(Step(weekOf, db, r))
  {
    var after := Step(weekOf, db, r);
    if Handle(weekOf, db, r).outcome.Done? {
      StructUnlockWeek(weekOf, db, r.k, r.actor, r.reason, r.now);
      StructPeriods(db.(entries := after.entries), after.periods);
    }
  }

  lemma StructTimer(weekOf: WeekOf, db: Db, r: Request)
    requires Struct(db) && (r.StartReq? || r.SwitchReq?)
    ensures Struct(Step(weekOf, db, r))
  {
    StructStart(weekOf, db, r.user, r.key, if r.StartReq? then r.body else r.body.(mood := None), r.appNow, r.now);
  }

  lemma StructApproval(weekOf: WeekOf, db: Db, r: Request)
    requires Struct(db) && (r.ManagerReq? || r.FinalReq?)
    ensures Struct(Step(weekOf, db, r))
  {
    StructBatch(db, r.ids, if r.ManagerReq? then ManagerVerdict(r.actor, r.approve, r.why, r.now)
                           else FinalVerdict(r.actor, r.approve, r.why, r.now));
  }

  /** Every request keeps the table guards, unique running timers and keys, and disjoint ranges included. */
  lemma StructStep(weekOf: WeekOf, db: Db, r: Request)
    requires Struct(db)
    ensures Struct(Step(weekOf, db, r))
  {
    if r.StartReq? || r.SwitchReq? { StructTimer(weekOf, db, r); }
    else if r.StopReq? || r.CleanupReq? { StructStop(weekOf, db, r); }
    else if r.CreateReq? { StructCreate(weekOf, db, r.user, r.manual, r.now); }
    else if r.EditReq? { StructEdit(weekOf, db, r.user, r.id, r.patch, r.canSee, r.now); }
    else if r.ManagerReq? || r.FinalReq? { StructApproval(weekOf, db, r); }
    else if r.SubmitReq? { StructSubmitReq(weekOf, db, r); }
    else if r.RemoveReq? { StructRemoveReq(weekOf, db, r); }
    else if r.AdminUnlockReq? { StructAdminUnlock(weekOf, db, r); }
    else { StructUnlockWeekReq(weekOf, db, r); }
  }

  // --- what a request may do to a locked week it does not recompute --------------------------

  /** Drafts of week `k` in `b` were drafts of it in `a`, or were born as timers. */
  predicate CalmDrafts(weekOf: WeekOf, a: Entries, b: Entries, k: PeriodKey) {
    forall id :: id in b && KeyOf(weekOf, b[id]) == k && b[id].status.Draft? ==>
      b[id].key.Some? || (id in a && KeyOf(weekOf, a[id]) == k && a[id].status.Draft? && a[id].key == b[id].key)
  }

  /** Nothing joins the filed entries of week `k`, and none of them falls back. */
  predicate CalmFloor(weekOf: WeekOf, a: Entries, b: Entries, k: PeriodKey) {
    && CalmDrafts(weekOf, a, b, k)
    && (forall id :: id in b && KeyOf(weekOf, b[id]) == k && LockedStatus(b[id].status) ==>
          id in a && KeyOf(weekOf, a[id]) == k && LockedStatus(a[id].status)
            && Stage(a[id].status) <= Stage(b[id].status))
  }

  /** The filed entries of week `k` are the same, in the same statuses. */
  predicate Calm(weekOf: WeekOf, a: Entries, b: Entries, k: PeriodKey) {
    && CalmDrafts(weekOf, a, b, k)
    && (forall id :: id in b && KeyOf(weekOf, b[id]) == k && Filed(b[id].status) ==>
          id in a && KeyOf(weekOf, a[id]) == k && a[id].status == b[id].status)
    && (forall id :: id in a && KeyOf(weekOf, a[id]) == k && Filed(a[id].status) ==>
          id in b && KeyOf(weekOf, b[id]) == k && a[id].status == b[id].status)
  }

  lemma CalmKeepsFiled(weekOf: WeekOf, a: Entries, b: Entries, k: PeriodKey)
    requires Calm(weekOf, a, b, k)
    ensures CalmFloor(weekOf, a, b, k)
    ensures FiledRollup(weekOf, a, k) == FiledRollup(weekOf, b, k)
  {
    forall st: Status | Filed(st) ensures Has(weekOf, a, k, st) <==> Has(weekOf, b, k, st) {
      if Has(weekOf, a, k, st) { var id :| id in a && KeyOf(weekOf, a[id]) == k && a[id].status == st; assert id in b; }
      if Has(weekOf, b, k, st) { var id :| id in b && KeyOf(weekOf, b[id]) == k && b[id].status == st; assert id in a; }
    }
  }

  /** A recomputed lock is exact: it is the rollup, which a draft or a rejection keeps open. */
  lemma RecomputedIsExact(weekOf: WeekOf, before: Periods, after: Db, keys: set<PeriodKey>, k: PeriodKey)
    requires Recompute(weekOf, before, after, keys) && k in keys
    ensures Exact(weekOf, after, k) && Floor(weekOf, after, k) && TimerDrafts(weekOf, after, k)
  {
    if IsLocked(after.periods, k) {
      assert after.periods[k].status == RollupOf(weekOf, after.entries, k);
      assert !Has(weekOf, after.entries, k, Draft);
      LockMeaning(weekOf, after.entries, k);
    }
  }

  lemma FloorKept(weekOf: WeekOf, db: Db, after: Db, keys: set<PeriodKey>, k: PeriodKey)
    requires Recompute(weekOf, db.periods, after, keys)
    requires k in keys || !IsLocked(db.periods, k) || CalmFloor(weekOf, db.entries, after.entries, k)
    ensures Floor(weekOf, db, k) ==> Floor(weekOf, after, k)
    ensures TimerDrafts(weekOf, db, k) ==> TimerDrafts(weekOf, after, k)
  {
    if k in keys { RecomputedIsExact(weekOf, db.periods, after, keys, k); }
  }

  lemma ExactKept(weekOf: WeekOf, db: Db, after: Db, keys: set<PeriodKey>, k: PeriodKey)
    requires Recompute(weekOf, db.periods, after, keys) && Exact(weekOf, db, k)
    requires k in keys || !IsLocked(db.periods, k) || Calm(weekOf, db.entries, after.entries, k)
    ensures Exact(weekOf, after, k)
  {
    if k in keys { RecomputedIsExact(weekOf, db.periods, after, keys, k); }
    else if IsLocked(db.periods, k) { CalmKeepsFiled(weekOf, db.entries, after.entries, k); }
  }

  // --- request by request -------------------------------------------------------------------

  lemma CalmTrans(weekOf: WeekOf, a: Entries, b: Entries, c: Entries, k: PeriodKey)
    requires Calm(weekOf, a, b, k) && Calm(weekOf, b, c, k)
    ensures Calm(weekOf, a, c, k)
  {
  }

  predicate TimersKeyed(entries: Entries) {
    forall id :: id in entries && entries[id].status.Running? ==> entries[id].key.Some?
  }

  lemma CalmStop(weekOf: WeekOf, a: Entries, user: UserId, notes: Option<string>, now: Instant, k: PeriodKey)
    requires TimersKeyed(a)
    ensures Calm(weekOf, a, StopRunning(a, user, notes, now), k)
  {
    var b := StopRunning(a, user, notes, now);
    assert b.Keys == a.Keys;
    forall id | id in a
      ensures KeyOf(weekOf, b[id]) == KeyOf(weekOf, a[id])
      ensures b[id] == a[id] || (b[id].status.Draft? && b[id].key.Some? && !Filed(a[id].status))
    { }
  }

  lemma CalmClose(weekOf: WeekOf, a: Entries, now: Instant, k: PeriodKey)
    requires TimersKeyed(a)
    ensures Calm(weekOf, a, CloseAbandoned(a, now), k)
  {
  }

  lemma CalmAdd(weekOf: WeekOf, a: Entries, id: EntryId, e: Entry, k: PeriodKey)
    requires id !in a && (KeyOf(weekOf, e) != k || e.status.Running?)
    ensures Calm(weekOf, a, a[id := e], k)
  {
  }

  /** The only things start and switch can do to the entries. */
  lemma StartShape(weekOf: WeekOf, db: Db, user: UserId, key: Option<string>, body: Body, appNow: Instant, now: Instant)
    ensures var after := StartTimer(weekOf, db, user, key, body, appNow, now).db;
      after == db || (key.Some?
        && after.entries == StopRunning(db.entries, user, None, now)[db.nextId := NewTimer(user, key.value, body, now)]
                      && Writable(weekOf, db.periods, user, now))
  {
  }

  lemma CalmStart(weekOf: WeekOf, db: Db, user: UserId, key: Option<string>, body: Body, appNow: Instant,
                  now: Instant, k: PeriodKey)
    requires TimersKeyed(db.entries) && db.nextId !in db.entries
    ensures Calm(weekOf, db.entries, StartTimer(weekOf, db, user, key, body, appNow, now).db.entries, k)
  {
    StartShape(weekOf, db, user, key, body, appNow, now);
    var after := StartTimer(weekOf, db, user, key, body, appNow, now).db;
    if after != db {
      var stopped := StopRunning(db.entries, user, None, now);
      CalmStop(weekOf, db.entries, user, None, now, k);
      CalmAdd(weekOf, stopped, db.nextId, NewTimer(user, key.value, body, now), k);
      CalmTrans(weekOf, db.entries, stopped, after.entries, k);
    }
  }

  lemma StopShape(weekOf: WeekOf, db: Db, r: Request)
    requires r.StopReq? || r.CleanupReq?
    ensures var entries := Step(weekOf, db, r).entries;
      || entries == db.entries
      || (r.StopReq? && entries == StopRunning(db.entries, r.user, r.notes, r.now))
      || (r.CleanupReq? && entries == CloseAbandoned(db.entries, r.now))
  {
  }

  lemma CalmStopReq(weekOf: WeekOf, db: Db, r: Request, k: PeriodKey)
    requires TimersKeyed(db.entries) && (r.StopReq? || r.CleanupReq?)
    ensures Calm(weekOf, db.entries, Step(weekOf, db, r).entries, k)
  {
    StopShape(weekOf, db, r);
    if r.StopReq? { CalmStop(weekOf, db.entries, r.user, r.notes, r.now, k); }
    else { CalmClose(weekOf, db.entries, r.now, k); }
  }

  lemma CalmTimer(weekOf: WeekOf, db: Db, r: Request, k: PeriodKey)
    requires TimersKeyed(db.entries) && db.nextId !in db.entries
    requires r.StartReq? || r.SwitchReq? || r.StopReq? || r.CleanupReq?
    ensures Calm(weekOf, db.entries, Step(weekOf, db, r).entries, k)
  {
    if r.StartReq? { CalmStart(weekOf, db, r.user, r.key, r.body, r.appNow, r.now, k); }
    else if r.SwitchReq? { CalmStart(weekOf, db, r.user, r.key, r.body.(mood := None), r.appNow, r.now, k); }
    else { CalmStopReq(weekOf, db, r, k); }
  }

  lemma CalmCreate(weekOf: WeekOf, db: Db, user: UserId, m: Manual, now: Instant, k: PeriodKey)
    requires db.nextId !in db.entries && IsLocked(db.periods, k)
    ensures Calm(weekOf, db.entries, CreateManual(weekOf, db, user, m, now).db.entries, k)
  {
    var after := CreateManual(weekOf, db, user, m, now).db;
    if after != db {
      CalmAdd(weekOf, db.entries, db.nextId, ManualEntry(user, m, now), k);
    }
  }

  /** A PATCH either changes nothing or rewrites one entry that is not locked, whose week it leaves alone
      or exchanges for a writable one. */
  lemma EditShape(weekOf: WeekOf, db: Db, user: UserId, id: EntryId, p: Patch, canSee: bool, now: Instant)
    ensures var after := Edit(weekOf, db, user, id, p, canSee, now).db;
      after == db ||
      (&& id in db.entries && !LockedStatus(db.entries[id].status)
       && after.entries == db.entries[id := Patched(db.entries[id], p, now)]
       && (p.startAt.None? || !IsLocked(db.periods, KeyOf(weekOf, after.entries[id]))))
  {
  }

  lemma CalmRewrite(weekOf: WeekOf, a: Entries, id: EntryId, e: Entry, k: PeriodKey)
    requires id in a && a[id].status == e.status && a[id].key == e.key && !LockedStatus(e.status)
    requires KeyOf(weekOf, e) == KeyOf(weekOf, a[id]) || KeyOf(weekOf, e) != k
    ensures CalmFloor(weekOf, a, a[id := e], k)
    ensures !(KeyOf(weekOf, a[id]) == k && e.status.Rejected?) ==> Calm(weekOf, a, a[id := e], k)
  {
  }

  lemma CalmEdit(weekOf: WeekOf, db: Db, r: Request, k: PeriodKey)
    requires r.EditReq? && IsLocked(db.periods, k)
    ensures CalmFloor(weekOf, db.entries, Step(weekOf, db, r).entries, k)
    ensures Exact(weekOf, db, k) ==> Calm(weekOf, db.entries, Step(weekOf, db, r).entries, k)
  {
    EditShape(weekOf, db, r.user, r.id, r.patch, r.canSee, r.now);
    var after := Step(weekOf, db, r);
    if after != db {
      CalmRewrite(weekOf, db.entries, r.id, after.entries[r.id], k);
    }
    if Exact(weekOf, db, k) { LockMeaning(weekOf, db.entries, k); }
  }

  lemma CalmDrop(weekOf: WeekOf, a: Entries, id: EntryId, k: PeriodKey)
    requires id in a ==> KeyOf(weekOf, a[id]) != k
    ensures Calm(weekOf, a, a - {id}, k)
  {
  }

  lemma CalmRemove(weekOf: WeekOf, db: Db, r: Request, k: PeriodKey)
    requires r.RemoveReq? && IsLocked(db.periods, k)
    ensures Calm(weekOf, db.entries, Step(weekOf, db, r).entries, k)
  {
    if Handle(weekOf, db, r).outcome.Done? { CalmDrop(weekOf, db.entries, r.id, k); }
  }

  lemma CalmSubmitEntries(weekOf: WeekOf, a: Entries, ids: set<EntryId>, user: UserId, now: Instant, k: PeriodKey)
    requires forall id :: id in ids && id in a ==> KeyOf(weekOf, a[id]) != k
    ensures Calm(weekOf, a, SubmitEntries(a, ids, user, now), k)
  {
  }

  lemma CalmSubmit(weekOf: WeekOf, db: Db, r: Request, k: PeriodKey)
    requires r.SubmitReq? && k !in Recomputed(weekOf, db, r)
    ensures Calm(weekOf, db.entries, Step(weekOf, db, r).entries, k)
  {
    if Handle(weekOf, db, r).outcome.Done? {
      var target := SubmitTarget(weekOf, db.entries[r.id], r.wholeWeek, r.token);
      CalmSubmitEntries(weekOf, db.entries, SubmitIds(weekOf, db.entries, r.id, target, r.wholeWeek), r.user, r.now, k);
    }
  }

  lemma CalmUnlockOne(weekOf: WeekOf, a: Entries, id: EntryId, e: Entry, k: PeriodKey)
    requires id in a && KeyOf(weekOf, a[id]) != k && KeyOf(weekOf, e) == KeyOf(weekOf, a[id])
    ensures Calm(weekOf, a, a[id := e], k)
  {
  }

  lemma CalmUnlockEntries(weekOf: WeekOf, a: Entries, week: PeriodKey, actor: UserId, reason: string, now: Instant,
                          k: PeriodKey)
    requires week != k
    ensures Calm(weekOf, a, UnlockEntries(weekOf, a, week, actor, reason, now), k)
  {
  }

  lemma CalmUnlock(weekOf: WeekOf, db: Db, r: Request, k: PeriodKey)
    requires (r.AdminUnlockReq? || r.UnlockWeekReq?) && k !in Recomputed(weekOf, db, r)
    ensures Calm(weekOf, db.entries, Step(weekOf, db, r).entries, k)
  {
    if Handle(weekOf, db, r).outcome.Done? {
      match r {
        case AdminUnlockReq(actor, id, reason, now) =>
          CalmUnlockOne(weekOf, db.entries, id, Unlocked(db.entries[id], FinalApproved, actor, reason, now), k);
        case UnlockWeekReq(actor, week, reason, now) =>
          CalmUnlockEntries(weekOf, db.entries, week, actor, reason, now, k);
      }
    }
  }

  lemma CalmBatch(weekOf: WeekOf, a: Entries, b: Entries, ids: seq<EntryId>, act: Action, k: PeriodKey)
    requires Verdict(act) && a.Keys == b.Keys
    requires forall id :: id in a ==>
        b[id] == a[id].(status := b[id].status, updatedAt := b[id].updatedAt, log := b[id].log)
    requires forall id :: id in a && b[id].status != a[id].status ==>
      id in ids && a[id].status == act.fromStatus && b[id].status == act.toStatus
    ensures CalmFloor(weekOf, a, b, k)
    ensures k !in AffectedWeeks(weekOf, b, ids) ==> Calm(weekOf, a, b, k)
  {
    forall id | id in a ensures KeyOf(weekOf, b[id]) == KeyOf(weekOf, a[id]) { }
  }

  lemma CalmApproval(weekOf: WeekOf, db: Db, ids: seq<EntryId>, a: Action, k: PeriodKey)
    requires Verdict(a)
    ensures var r := Approval(weekOf, db, ids, a);
      && CalmFloor(weekOf, db.entries, r.db.entries, k)
      && (k !in AffectedWeeks(weekOf, r.db.entries, ids) ==> Calm(weekOf, db.entries, r.db.entries, k))
  {
    var b := RunBatch(db.entries, ids, a).entries;
    BatchKeys(db.entries, ids, a);
    forall id | id in db.entries
      ensures b[id] == db.entries[id].(status := b[id].status, updatedAt := b[id].updatedAt, log := b[id].log)
      ensures b[id].status != db.entries[id].status ==>
            id in ids && db.entries[id].status == a.fromStatus && b[id].status == a.toStatus
    {
      BatchTouches(db.entries, ids, a, id);
    }
    CalmBatch(weekOf, db.entries, b, ids, a, k);
  }

  /** The batch gets to its end: every id has a row, and no stage-2 check refuses. A caller can check this. */
  ghost predicate Completes(weekOf: WeekOf, db: Db, r: Request) {
    match r
    case ManagerReq(actor, ids, approve, why, now) =>
      RunsThrough(db.entries, ids, ManagerVerdict(actor, approve, why, now))
    case FinalReq(actor, ids, approve, why, now) => RunsThrough(db.entries, ids, FinalVerdict(actor, approve, why, now))
    case _ => true
  }

  lemma CompletesIsDone(weekOf: WeekOf, db: Db, r: Request)
    requires (r.ManagerReq? || r.FinalReq?) && Completes(weekOf, db, r)
    ensures Handle(weekOf, db, r).outcome.Done? || Step(weekOf, db, r) == db
  {
    var a := if r.ManagerReq? then ManagerVerdict(r.actor, r.approve, r.why, r.now)
      else FinalVerdict(r.actor, r.approve, r.why, r.now);
    BatchClosedForm(db.entries, r.ids, a);
  }

  lemma StepCalmBatch(weekOf: WeekOf, db: Db, r: Request, k: PeriodKey)
    requires r.ManagerReq? || r.FinalReq?
    requires Struct(db) && IsLocked(db.periods, k) && k !in Recomputed(weekOf, db, r)
    ensures CalmFloor(weekOf, db.entries, Step(weekOf, db, r).entries, k)
    ensures Exact(weekOf, db, k) && Completes(weekOf, db, r) ==>
        Calm(weekOf, db.entries, Step(weekOf, db, r).entries, k)
  {
    if r.ManagerReq? { CalmApproval(weekOf, db, r.ids, ManagerVerdict(r.actor, r.approve, r.why, r.now), k); }
    else { CalmApproval(weekOf, db, r.ids, FinalVerdict(r.actor, r.approve, r.why, r.now), k); }
    if Completes(weekOf, db, r) { CompletesIsDone(weekOf, db, r); }
  }

  /** Every other request but an edit keeps the filed entries of a week it does not recompute. */
  lemma StepCalmPlain(weekOf: WeekOf, db: Db, r: Request, k: PeriodKey)
    requires !r.ManagerReq? && !r.FinalReq? && !r.EditReq?
    requires Struct(db) && IsLocked(db.periods, k) && k !in Recomputed(weekOf, db, r)
    ensures Calm(weekOf, db.entries, Step(weekOf, db, r).entries, k)
  {
    match r {
      case SubmitReq(_, _, _, _, _) => CalmSubmit(weekOf, db, r, k);
      case CreateReq(user, manual, now) => CalmCreate(weekOf, db, user, manual, now, k);
      case RemoveReq(_, _, _) => CalmRemove(weekOf, db, r, k);
      case AdminUnlockReq(_, _, _, _) => CalmUnlock(weekOf, db, r, k);
      case UnlockWeekReq(_, _, _, _) => CalmUnlock(weekOf, db, r, k);
      case _ => CalmTimer(weekOf, db, r, k);
    }
  }

  lemma StepCalm(weekOf: WeekOf, db: Db, r: Request, k: PeriodKey)
    requires Struct(db) && IsLocked(db.periods, k) && k !in Recomputed(weekOf, db, r)
    ensures CalmFloor(weekOf, db.entries, Step(weekOf, db, r).entries, k)
    ensures Exact(weekOf, db, k) && Completes(weekOf, db, r) ==>
        Calm(weekOf, db.entries, Step(weekOf, db, r).entries, k)
  {
    if r.ManagerReq? || r.FinalReq? {
      StepCalmBatch(weekOf, db, r, k);
    } else if r.EditReq? {
      CalmEdit(weekOf, db, r, k);
    } else {
      StepCalmPlain(weekOf, db, r, k);
      CalmKeepsFiled(weekOf, db.entries, Step(weekOf, db, r).entries, k);
    }
  }

  // --- over every run -----------------------------------------------------------------------

  /** No request breaks the floor of a week's lock, nor puts under it a draft not born as a timer. */
  lemma WeekStep(weekOf: WeekOf, db: Db, r: Request, k: PeriodKey)
    requires Struct(db)
    ensures Floor(weekOf, db, k) ==> Floor(weekOf, Step(weekOf, db, r), k)
    ensures TimerDrafts(weekOf, db, k) ==> TimerDrafts(weekOf, Step(weekOf, db, r), k)
  {
    StepPeriods(weekOf, db, r);
    if IsLocked(db.periods, k) && k !in Recomputed(weekOf, db, r) { StepCalm(weekOf, db, r, k); }
    FloorKept(weekOf, db, Step(weekOf, db, r), Recomputed(weekOf, db, r), k);
  }

  lemma BaseStep(weekOf: WeekOf, db: Db, r: Request)
    requires Base(weekOf, db)
    ensures Base(weekOf, Step(weekOf, db, r))
  {
    StructStep(weekOf, db, r);
    forall k ensures Floor(weekOf, Step(weekOf, db, r), k) && TimerDrafts(weekOf, Step(weekOf, db, r), k) {
      assert Floor(weekOf, db, k) && TimerDrafts(weekOf, db, k);
      WeekStep(weekOf, db, r, k);
    }
  }

  lemma SoundStep(weekOf: WeekOf, db: Db, r: Request)
    requires Sound(weekOf, db) && Completes(weekOf, db, r)
    ensures Sound(weekOf, Step(weekOf, db, r))
  {
    var after, keys := Step(weekOf, db, r), Recomputed(weekOf, db, r);
    BaseStep(weekOf, db, r);
    StepPeriods(weekOf, db, r);
    forall k ensures Exact(weekOf, after, k) {
      if IsLocked(db.periods, k) && k !in keys { StepCalm(weekOf, db, r, k); }
      ExactKept(weekOf, db, after, keys, k);
    }
  }

  ghost predicate AllComplete(weekOf: WeekOf, rs: seq<Request>) {
    rs == [] || (AllComplete(weekOf, rs[..|rs| - 1]) && Completes(weekOf, Run(weekOf, rs[..|rs| - 1]), rs[|rs| - 1]))
  }

  /** In every run: the table guards hold, filed entries of a locked week are rejected or at or above its
      stored status, and its drafts were born as timers. */
  lemma {:induction false} RunsKeepBase(weekOf: WeekOf, rs: seq<Request>)
    ensures Base(weekOf, Run(weekOf, rs))
  {
    if rs != [] {
      RunsKeepBase(weekOf, rs[..|rs| - 1]);
      BaseStep(weekOf, Run(weekOf, rs[..|rs| - 1]), rs[|rs| - 1]);
    }
  }

  lemma {:induction false} RunsKeepSound(weekOf: WeekOf, rs: seq<Request>)
    requires AllComplete(weekOf, rs)
    ensures Sound(weekOf, Run(weekOf, rs))
  {
    if rs != [] {
      RunsKeepSound(weekOf, rs[..|rs| - 1]);
      SoundStep(weekOf, Run(weekOf, rs[..|rs| - 1]), rs[|rs| - 1]);
    }
  }

  /** What a lock on week `k` says about the entries of the week. */
  predicate LockHolds(weekOf: WeekOf, db: Db, k: PeriodKey) {
    IsLocked(db.periods, k) ==>
      var n := PeriodStage(db.periods[k].status);
      && (exists id :: id in db.entries && KeyOf(weekOf, db.entries[id]) == k && Stage(db.entries[id].status) == n)
      && (forall id :: id in db.entries && KeyOf(weekOf, db.entries[id]) == k ==>
            match db.entries[id].status
            case Running => true
            case Draft => db.entries[id].key.Some?
            case Rejected => false
            case st => n <= Stage(st))
  }

  lemma ExactLockHolds(weekOf: WeekOf, db: Db, k: PeriodKey)
    requires Exact(weekOf, db, k) && TimerDrafts(weekOf, db, k)
    ensures LockHolds(weekOf, db, k)
  {
    if IsLocked(db.periods, k) { LockMeaning(weekOf, db.entries, k); }
  }

  lemma LockHoldsIff(weekOf: WeekOf, db: Db, k: PeriodKey)
    ensures LockHolds(weekOf, db, k) <==> Exact(weekOf, db, k) && TimerDrafts(weekOf, db, k)
  {
    if Exact(weekOf, db, k) && TimerDrafts(weekOf, db, k) { ExactLockHolds(weekOf, db, k); }
    if LockHolds(weekOf, db, k) && IsLocked(db.periods, k) {
      var n := PeriodStage(db.periods[k].status);
      var id :| id in db.entries && KeyOf(weekOf, db.entries[id]) == k && Stage(db.entries[id].status) == n;
      assert Has(weekOf, db.entries, k, db.entries[id].status);
    }
  }

  /** Lock soundness. In every run whose batches run through, a locked week's filed entries are non-empty,
      none is rejected, the stored status is exactly their lowest stage, and any draft there was a timer. */
  lemma LocksAreSound(weekOf: WeekOf, rs: seq<Request>)
    requires AllComplete(weekOf, rs)
    ensures forall k :: LockHolds(weekOf, Run(weekOf, rs), k)
  {
    RunsKeepSound(weekOf, rs);
    var db := Run(weekOf, rs);
    forall k ensures LockHolds(weekOf, db, k) {
      assert Exact(weekOf, db, k) && TimerDrafts(weekOf, db, k);
      ExactLockHolds(weekOf, db, k);
    }
  }

  /** The stored status of a locked week is the rollup of its entries exactly when no draft sits in it. */
  lemma StoredIsRollupIff(weekOf: WeekOf, db: Db, k: PeriodKey)
    requires Exact(weekOf, db, k) && IsLocked(db.periods, k)
    ensures db.periods[k].status == RollupOf(weekOf, db.entries, k) <==> !Has(weekOf, db.entries, k, Draft)
  {
    LockMeaning(weekOf, db.entries, k);
  }

  // --- when a batch that stops half way breaks the lock --------------------------------------

  /** The batch moves this entry: it is named before the stop and stands at the batch's stage. */
  predicate Moves(entries: Entries, named: seq<EntryId>, a: Action, id: EntryId) {
    id in named && id in entries && entries[id].status == a.fromStatus
  }

  /** Week `k` holds an entry the batch moves. */
  predicate MovesAny(weekOf: WeekOf, entries: Entries, named: seq<EntryId>, a: Action, k: PeriodKey) {
    exists id :: id in entries && KeyOf(weekOf, entries[id]) == k && Moves(entries, named, a, id)
  }

  /** Week `k` holds an entry in status `st` that the batch does not move. */
  predicate Stays(weekOf: WeekOf, entries: Entries, named: seq<EntryId>, a: Action, k: PeriodKey, st: Status) {
    exists id :: id in entries && KeyOf(weekOf, entries[id]) == k && entries[id].status == st
      && !Moves(entries, named, a, id)
  }

  /** The entry status a locked period status is named after. */
  function EntryStatusOf(st: PeriodStatus): Status
    requires LockedPeriod(st)
  {
    match st
    case PSubmitted => Status.Submitted
    case PManagerApproved => ManagerApproved
    case PFinalApproved => FinalApproved
  }

  /** What a caller of a batch that will stop must know of week `k`: nothing of it is moved, or, on an
      approval, something at the stored stage stays behind. */
  predicate Harmless(weekOf: WeekOf, db: Db, named: seq<EntryId>, a: Action, k: PeriodKey)
    requires IsLocked(db.periods, k)
  {
    || !MovesAny(weekOf, db.entries, named, a, k)
    || (!a.toStatus.Rejected? && Stays(weekOf, db.entries, named, a, k, EntryStatusOf(db.periods[k].status)))
  }

  predicate MovedBy(weekOf: WeekOf, entries: Entries, b: Entries, named: seq<EntryId>, a: Action) {
    && b.Keys == entries.Keys
    && (forall id :: id in b ==> KeyOf(weekOf, b[id]) == KeyOf(weekOf, entries[id]))
    && (forall id :: id in b ==>
         b[id].status == if Moves(entries, named, a, id) then a.toStatus else entries[id].status)
  }

  lemma HasAfterMoving(weekOf: WeekOf, entries: Entries, b: Entries, named: seq<EntryId>, a: Action, k: PeriodKey,
                       st: Status)
    requires Verdict(a) && MovedBy(weekOf, entries, b, named, a)
    ensures Has(weekOf, entries, k, st) <==>
      Stays(weekOf, entries, named, a, k, st) || (st == a.fromStatus && MovesAny(weekOf, entries, named, a, k))
    ensures Has(weekOf, b, k, st) <==>
      Stays(weekOf, entries, named, a, k, st) || (st == a.toStatus && MovesAny(weekOf, entries, named, a, k))
  {
    if Has(weekOf, entries, k, st) {
      var id :| id in entries && KeyOf(weekOf, entries[id]) == k && entries[id].status == st;
      assert id in b;
    }
    if Stays(weekOf, entries, named, a, k, st) {
      var id :| id in entries && KeyOf(weekOf, entries[id]) == k && entries[id].status == st
        && !Moves(entries, named, a, id);
      assert id in b;
    }
    if MovesAny(weekOf, entries, named, a, k) {
      var id :| id in entries && KeyOf(weekOf, entries[id]) == k && Moves(entries, named, a, id);
      assert id in b;
    }
  }

  /** Moving some entries of a locked week without recomputing keeps its lock exact iff the move is harmless. */
  lemma MovedKeepsExactIff(weekOf: WeekOf, db: Db, b: Entries, named: seq<EntryId>, a: Action, k: PeriodKey)
    requires Verdict(a) && IsLocked(db.periods, k) && Exact(weekOf, db, k)
    requires MovedBy(weekOf, db.entries, b, named, a)
    ensures Exact(weekOf, db.(entries := b), k) <==> Harmless(weekOf, db, named, a, k)
  {
    HasAfterMoving(weekOf, db.entries, b, named, a, k, Status.Submitted);
    HasAfterMoving(weekOf, db.entries, b, named, a, k, ManagerApproved);
    HasAfterMoving(weekOf, db.entries, b, named, a, k, FinalApproved);
    HasAfterMoving(weekOf, db.entries, b, named, a, k, Rejected);
  }

  /** A batch that stops half way leaves the lock of week `k` exact iff what it did before the stop is harmless.
      Where it stops, and so this condition, can be read off the tables before the call. */
  lemma StoppedBatchKeepsExactIff(weekOf: WeekOf, db: Db, ids: seq<EntryId>, a: Action, k: PeriodKey)
    requires Verdict(a) && IsLocked(db.periods, k) && Exact(weekOf, db, k)
    requires !RunsThrough(db.entries, ids, a)
    ensures Exact(weekOf, Approval(weekOf, db, ids, a).db, k)
      <==> Harmless(weekOf, db, ids[..FirstStop(db.entries, ids, a)], a, k)
  {
    var n := BatchStopsAt(db.entries, ids, a);
    FirstStopIs(db.entries, ids, a, n);
    var named := ids[..n];
    var b := RunBatch(db.entries, ids, a).entries;
    forall id | id in b
      ensures KeyOf(weekOf, b[id]) == KeyOf(weekOf, db.entries[id])
        && b[id].status == if Moves(db.entries, named, a, id) then a.toStatus else db.entries[id].status
    {
      BatchClosedForm(db.entries, named, a);
      BatchStatuses(db.entries, named, a, id);
    }
    MovedKeepsExactIff(weekOf, db, b, named, a, k);
  }
}
