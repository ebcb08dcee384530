/** A locked week takes no entry in and loses none, and a locked entry keeps its content. */
module FrozenWeeks {
  import opened Tables
  import opened Requests
  import opened Batches
  import opened LockSoundness

  /** What a timesheet says about an entry, apart from its approval state. */
  predicate SameContent(a: Entry, b: Entry) {
    && a.user == b.user && a.startAt == b.startAt && a.endAt == b.endAt
    && a.project == b.project && a.task == b.task && a.notes == b.notes && a.billable == b.billable
  }

  /** No entry joins week `k`. */
  predicate NoneJoins(weekOf: WeekOf, a: Entries, b: Entries, k: PeriodKey) {
    forall id :: id in b && KeyOf(weekOf, b[id]) == k ==> id in a && KeyOf(weekOf, a[id]) == k
  }

  /** No entry of week `k` is deleted. */
  predicate NoneDeleted(weekOf: WeekOf, a: Entries, b: Entries, k: PeriodKey) {
    forall id :: id in a && KeyOf(weekOf, a[id]) == k ==> id in b
  }

  predicate LockedKept(a: Entries, b: Entries) {
    forall id :: id in a && LockedStatus(a[id].status) ==> id in b && SameContent(a[id], b[id])
  }

  /** Rows change at most status, updated_at and history. */
  predicate StatusOnly(a: Entries, b: Entries) {
    && a.Keys == b.Keys
    && (forall id :: id in a ==>
         b[id] == a[id].(status := b[id].status, updatedAt := b[id].updatedAt, log := b[id].log))
  }

  predicate Frozen(weekOf: WeekOf, a: Entries, b: Entries, k: PeriodKey) {
    NoneJoins(weekOf, a, b, k) && NoneDeleted(weekOf, a, b, k)
  }

  lemma StatusOnlyFreezes(weekOf: WeekOf, a: Entries, b: Entries, k: PeriodKey)
    requires StatusOnly(a, b)
    ensures Frozen(weekOf, a, b, k) && LockedKept(a, b)
  {
    forall id | id in a ensures KeyOf(weekOf, a[id]) == KeyOf(weekOf, b[id]) && SameContent(a[id], b[id]) { }
  }

  lemma StopFreezes(weekOf: WeekOf, a: Entries, user: UserId, notes: Option<string>, now: Instant, k: PeriodKey)
    ensures var b := StopRunning(a, user, notes, now); Frozen(weekOf, a, b, k) && LockedKept(a, b)
  {
  }

  lemma CloseFreezes(weekOf: WeekOf, a: Entries, now: Instant, k: PeriodKey)
    ensures var b := CloseAbandoned(a, now); Frozen(weekOf, a, b, k) && LockedKept(a, b)
  {
  }

  lemma AddFreezes(weekOf: WeekOf, a: Entries, b: Entries, id: EntryId, e: Entry, k: PeriodKey)
    requires Frozen(weekOf, a, b, k) && LockedKept(a, b) && id !in a && KeyOf(weekOf, e) != k
    ensures Frozen(weekOf, a, b[id := e], k) && LockedKept(a, b[id := e])
  {
  }

  lemma DropFreezes(weekOf: WeekOf, a: Entries, id: EntryId, k: PeriodKey)
    requires id in a && KeyOf(weekOf, a[id]) != k && !LockedStatus(a[id].status)
    ensures Frozen(weekOf, a, a - {id}, k) && LockedKept(a, a - {id})
  {
  }

  lemma RewriteFreezes(weekOf: WeekOf, a: Entries, id: EntryId, e: Entry, k: PeriodKey)
    requires id in a && !LockedStatus(a[id].status)
    requires KeyOf(weekOf, e) == KeyOf(weekOf, a[id]) || KeyOf(weekOf, e) != k
    ensures Frozen(weekOf, a, a[id := e], k) && LockedKept(a, a[id := e])
  {
  }

  lemma StartFreezes(weekOf: WeekOf, db: Db, user: UserId, key: Option<string>, body: Body, appNow: Instant,
                     now: Instant, k: PeriodKey)
    requires db.nextId !in db.entries
    ensures var b := StartTimer(weekOf, db, user, key, body, appNow, now).db.entries;
      LockedKept(db.entries, b) && (IsLocked(db.periods, k) ==> Frozen(weekOf, db.entries, b, k))
  {
    StartShape(weekOf, db, user, key, body, appNow, now);
    var after := StartTimer(weekOf, db, user, key, body, appNow, now).db;
    if after != db {
      StopFreezes(weekOf, db.entries, user, None, now, k);
      var e := NewTimer(user, key.value, body, now);
      if IsLocked(db.periods, k) {
        AddFreezes(weekOf, db.entries, StopRunning(db.entries, user, None, now), db.nextId, e, k);
      }
    }
  }

  lemma WritesFreeze(weekOf: WeekOf, db: Db, r: Request, k: PeriodKey)
    requires db.nextId !in db.entries && (r.CreateReq? || r.EditReq? || r.RemoveReq?)
    ensures var b := Step(weekOf, db, r).entries;
      LockedKept(db.entries, b) && (IsLocked(db.periods, k) ==> Frozen(weekOf, db.entries, b, k))
  {
    var after := Step(weekOf, db, r);
    if after != db {
      match r {
        case CreateReq(user, m, now) =>
          if IsLocked(db.periods, k) {
            AddFreezes(weekOf, db.entries, db.entries, db.nextId, ManualEntry(user, m, now), k);
          }
        case EditReq(user, id, p, canSee, now) =>
          EditShape(weekOf, db, user, id, p, canSee, now);
          if IsLocked(db.periods, k) { RewriteFreezes(weekOf, db.entries, id, after.entries[id], k); }
        case RemoveReq(user, id, _) =>
          if IsLocked(db.periods, k) { DropFreezes(weekOf, db.entries, id, k); }
      }
    }
  }

  lemma SubmitEntriesStatusOnly(a: Entries, ids: set<EntryId>, user: UserId, now: Instant)
    ensures StatusOnly(a, SubmitEntries(a, ids, user, now))
  {
  }

  lemma SubmitStatusOnly(weekOf: WeekOf, db: Db, r: Request)
    requires r.SubmitReq?
    ensures StatusOnly(db.entries, Step(weekOf, db, r).entries)
  {
    if Handle(weekOf, db, r).outcome.Done? {
      var k := SubmitTarget(weekOf, db.entries[r.id], r.wholeWeek, r.token);
      SubmitEntriesStatusOnly(db.entries, SubmitIds(weekOf, db.entries, r.id, k, r.wholeWeek), r.user, r.now);
    }
  }

  lemma UnlockOneStatusOnly(a: Entries, id: EntryId, from: Status, actor: UserId, reason: string, now: Instant)
    requires id in a
    ensures StatusOnly(a, a[id := Unlocked(a[id], from, actor, reason, now)])
  {
  }

  lemma UnlockEntriesStatusOnly(weekOf: WeekOf, a: Entries, k: PeriodKey, actor: UserId, reason: string, now: Instant)
    ensures StatusOnly(a, UnlockEntries(weekOf, a, k, actor, reason, now))
  {
  }

  lemma UnlockStatusOnly(weekOf: WeekOf, db: Db, r: Request)
    requires r.AdminUnlockReq? || r.UnlockWeekReq?
    ensures StatusOnly(db.entries, Step(weekOf, db, r).entries)
  {
    if Handle(weekOf, db, r).outcome.Done? {
      match r {
        case AdminUnlockReq(actor, id, reason, now) =>
          UnlockOneStatusOnly(db.entries, id, FinalApproved, actor, reason, now);
        case UnlockWeekReq(actor, k, reason, now) => UnlockEntriesStatusOnly(weekOf, db.entries, k, actor, reason, now);
      }
    }
  }

  lemma ApprovalStatusOnly(weekOf: WeekOf, db: Db, ids: seq<EntryId>, a: Action)
    requires Verdict(a)
    ensures StatusOnly(db.entries, Approval(weekOf, db, ids, a).db.entries)
  {
    var b := RunBatch(db.entries, ids, a).entries;
    BatchKeys(db.entries, ids, a);
    forall id | id in db.entries
      ensures b[id] == db.entries[id].(status := b[id].status, updatedAt := b[id].updatedAt, log := b[id].log)
    {
      BatchTouches(db.entries, ids, a, id);
    }
  }

  lemma StatusRequestsFreeze(weekOf: WeekOf, db: Db, r: Request, k: PeriodKey)
    requires r.SubmitReq? || r.AdminUnlockReq? || r.UnlockWeekReq? || r.ManagerReq? || r.FinalReq?
    ensures var b := Step(weekOf, db, r).entries; LockedKept(db.entries, b) && Frozen(weekOf, db.entries, b, k)
  {
    match r {
      case ManagerReq(actor, ids, approve, why, now) =>
        ApprovalStatusOnly(weekOf, db, ids, ManagerVerdict(actor, approve, why, now));
      case FinalReq(actor, ids, approve, why, now) =>
        ApprovalStatusOnly(weekOf, db, ids, FinalVerdict(actor, approve, why, now));
      case SubmitReq(_, _, _, _, _) => SubmitStatusOnly(weekOf, db, r);
      case _ => UnlockStatusOnly(weekOf, db, r);
    }
    StatusOnlyFreezes(weekOf, db.entries, Step(weekOf, db, r).entries, k);
  }

  lemma StopRequestsFreeze(weekOf: WeekOf, db: Db, r: Request, k: PeriodKey)
    requires r.StopReq? || r.CleanupReq?
    ensures var b := Step(weekOf, db, r).entries; LockedKept(db.entries, b) && Frozen(weekOf, db.entries, b, k)
  {
    StopShape(weekOf, db, r);
    if r.StopReq? { StopFreezes(weekOf, db.entries, r.user, r.notes, r.now, k); }
    else { CloseFreezes(weekOf, db.entries, r.now, k); }
  }

  /** No request puts an entry into a locked week or deletes one from it, and none changes the content of an
      entry in a locked status. */
  lemma StepFreezes(weekOf: WeekOf, db: Db, r: Request, k: PeriodKey)
    requires db.nextId !in db.entries
    ensures LockedKept(db.entries, Step(weekOf, db, r).entries)
    ensures IsLocked(db.periods, k) ==> Frozen(weekOf, db.entries, Step(weekOf, db, r).entries, k)
  {
    if r.StartReq? { StartFreezes(weekOf, db, r.user, r.key, r.body, r.appNow, r.now, k); }
    else if r.SwitchReq? { StartFreezes(weekOf, db, r.user, r.key, r.body.(mood := None), r.appNow, r.now, k); }
    else if r.StopReq? || r.CleanupReq? { StopRequestsFreeze(weekOf, db, r, k); }
    else if r.CreateReq? || r.EditReq? || r.RemoveReq? { WritesFreeze(weekOf, db, r, k); }
    else { StatusRequestsFreeze(weekOf, db, r, k); }
  }

  // --- over runs ---------------------------------------------------------------------------

  ghost function RunFrom(weekOf: WeekOf, db: Db, rs: seq<Request>): Db {
    if rs == [] then db else Step(weekOf, RunFrom(weekOf, db, rs[..|rs| - 1]), rs[|rs| - 1])
  }

  /** Week `k` is locked when each of the requests arrives. */
  ghost predicate LockedThroughout(weekOf: WeekOf, db: Db, rs: seq<Request>, k: PeriodKey) {
    rs == [] || (LockedThroughout(weekOf, db, rs[..|rs| - 1], k)
      && IsLocked(RunFrom(weekOf, db, rs[..|rs| - 1]).periods, k))
  }

  /** Entry `id` is in a locked status when each of the requests arrives. */
  ghost predicate EntryLockedThroughout(weekOf: WeekOf, db: Db, rs: seq<Request>, id: EntryId) {
    rs == [] || (
      && EntryLockedThroughout(weekOf, db, rs[..|rs| - 1], id)
      && (var before := RunFrom(weekOf, db, rs[..|rs| - 1]).entries; id in before && LockedStatus(before[id].status)))
  }

  lemma {:induction false} RunFromKeepsStruct(weekOf: WeekOf, db: Db, rs: seq<Request>)
    requires Struct(db)
    ensures Struct(RunFrom(weekOf, db, rs))
  {
    if rs != [] {
      RunFromKeepsStruct(weekOf, db, rs[..|rs| - 1]);
      StructStep(weekOf, RunFrom(weekOf, db, rs[..|rs| - 1]), rs[|rs| - 1]);
    }
  }

  lemma FrozenTrans(weekOf: WeekOf, a: Entries, b: Entries, c: Entries, k: PeriodKey)
    requires NoneJoins(weekOf, a, b, k) && NoneJoins(weekOf, b, c, k)
    ensures NoneJoins(weekOf, a, c, k)
  {
  }

  /** While a week stays locked, whatever requests run, nothing joins it. */
  lemma {:induction false} LockedWeekTakesNothingIn(weekOf: WeekOf, db: Db, rs: seq<Request>, k: PeriodKey)
    requires Struct(db) && LockedThroughout(weekOf, db, rs, k)
    ensures NoneJoins(weekOf, db.entries, RunFrom(weekOf, db, rs).entries, k)
  {
    if rs != [] {
      var before := RunFrom(weekOf, db, rs[..|rs| - 1]);
      LockedWeekTakesNothingIn(weekOf, db, rs[..|rs| - 1], k);
      RunFromKeepsStruct(weekOf, db, rs[..|rs| - 1]);
      assert before.nextId !in before.entries;
      StepFreezes(weekOf, before, rs[|rs| - 1], k);
      FrozenTrans(weekOf, db.entries, before.entries, RunFrom(weekOf, db, rs).entries, k);
    }
  }

  /** After each of the requests, the entry is in week `k` if it is there at all. */
  ghost predicate StaysIn(weekOf: WeekOf, db: Db, rs: seq<Request>, id: EntryId, k: PeriodKey) {
    && (rs == [] || StaysIn(weekOf, db, rs[..|rs| - 1], id, k))
    && var after := RunFrom(weekOf, db, rs).entries; (id in after ==> KeyOf(weekOf, after[id]) == k)
  }

  /** While a week stays locked, whatever requests run, an entry that is not moved out of it is not deleted. */
  lemma {:induction false} LockedWeekLosesNothing(weekOf: WeekOf, db: Db, rs: seq<Request>, k: PeriodKey, id: EntryId)
    requires Struct(db) && id in db.entries && LockedThroughout(weekOf, db, rs, k) && StaysIn(weekOf, db, rs, id, k)
    ensures id in RunFrom(weekOf, db, rs).entries
  {
    if rs != [] {
      var before := RunFrom(weekOf, db, rs[..|rs| - 1]);
      LockedWeekLosesNothing(weekOf, db, rs[..|rs| - 1], k, id);
      RunFromKeepsStruct(weekOf, db, rs[..|rs| - 1]);
      assert before.nextId !in before.entries;
      StepFreezes(weekOf, before, rs[|rs| - 1], k);
    }
  }

  /** As long as an entry is in a locked status, its content is what it was. */
  lemma {:induction false} LockedEntryKeepsContent(weekOf: WeekOf, db: Db, rs: seq<Request>, id: EntryId)
    requires Struct(db) && id in db.entries && EntryLockedThroughout(weekOf, db, rs, id)
    ensures var after := RunFrom(weekOf, db, rs).entries; id in after && SameContent(db.entries[id], after[id])
  {
    if rs != [] {
      var before := RunFrom(weekOf, db, rs[..|rs| - 1]);
      LockedEntryKeepsContent(weekOf, db, rs[..|rs| - 1], id);
      RunFromKeepsStruct(weekOf, db, rs[..|rs| - 1]);
      assert before.nextId !in before.entries;
      StepFreezes(weekOf, before, rs[|rs| - 1], PeriodKey(0, Week(0, 0)));
    }
  }
}
