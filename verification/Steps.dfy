/** What each step of a call does, whatever has happened since the step before, told like the contracts of whole
    requests. */
module Steps {
  import opened Tables
  import opened Rollup
  import opened Requests
  import opened LockSoundness
  import opened Effects
  import opened Contracts
  import opened Statements
  import I = Interleaving

  // --- timers and manual writes ------------------------------------------------------------

  /** Call `c` is at `pc`, for a timer or not. */
  predicate AtStep(w: I.World, c: I.CallId, timer: bool, pc: I.Pc) {
    c in w.calls && w.calls[c].work.TimerWork? == timer && w.calls[c].pc == pc
  }

  /** The world with `db` for tables and call `c` at `pc`. */
  function Going(w: I.World, c: I.CallId, db: Db, pc: I.Pc): I.World
    requires c in w.calls
  {
    I.World(db, w.calls[c := I.Call(w.calls[c].user, w.calls[c].work, pc)])
  }

  lemma ArriveContract(weekOf: WeekOf, w: I.World, c: I.CallId, user: UserId, work: I.Work)
    ensures I.Next(weekOf, w, I.Arrive(c, user, work))
      == if c in w.calls then w else I.World(w.db, w.calls[c := I.Call(user, work, I.Arrived)])
  {
  }

  /** The lookup answers from the stored row, or lets the call go on. */
  lemma LookUpContract(weekOf: WeekOf, w: I.World, c: I.CallId)
    ensures var after := I.Next(weekOf, w, I.LookUp(c));
      if !AtStep(w, c, true, I.Arrived) then after == w
      else
        var call := w.calls[c];
        var at := CacheKey(call.user, call.work.key);
        after == Going(w, c, w.db,
          if at !in w.db.cache then I.Missed
          else if w.db.cache[at].body == StartBody(call.work.body) then I.Finished(w.db.cache[at].reply)
          else I.Aborted(IdempotencyConflict))
  {
  }

  /** What the checks of a call say of the tables as they are. */
  predicate ChecksAs(weekOf: WeekOf, db: Db, user: UserId, work: I.Work, appNow: Instant, pc: I.Pc) {
    match work
    case TimerWork(_, _) => pc == if WeekLocked(weekOf, db.periods, user, appNow) then I.Aborted(Error.PeriodLocked)
                                  else I.Checked
    case CreateWork(m) =>
      pc == if m.endAt <= m.startAt || m.endAt - m.startAt > 86_400_000_000
               || (exists id :: id in db.entries && Meets(db.entries[id], user, m.startAt, m.endAt))
            then I.Aborted(ValidationFailed)
            else if WeekLocked(weekOf, db.periods, user, m.startAt) then I.Aborted(Error.PeriodLocked)
            else I.Checked
    case EditWork(id, p, canSee) =>
      pc == if id !in db.entries || db.entries[id].user != user then I.Aborted(NotFound)
            else if FiledStatus(db.entries[id].status) then I.Aborted(Error.EntryLocked)
            else if (p.startAt.Some? || p.endAt.Some?)
                    && WeekLocked(weekOf, db.periods, user,
                                  if p.startAt.Some? then p.startAt.value else db.entries[id].startAt)
            then I.Aborted(Error.PeriodLocked)
            else if p.project.Some? && p.project.value != db.entries[id].project && !canSee then I.Aborted(Forbidden)
            else I.Checked
    case RemoveWork(id) =>
      pc == if id !in db.entries || db.entries[id].user != user then I.Aborted(NotFound)
            else if FiledStatus(db.entries[id].status) then I.Aborted(Error.EntryLocked)
            else if WeekLocked(weekOf, db.periods, user, db.entries[id].startAt) then I.Aborted(Error.PeriodLocked)
            else I.Checked
  }

  /** The check takes a timer call after its lookup, a manual write at once. */
  lemma CheckContract(weekOf: WeekOf, w: I.World, c: I.CallId, appNow: Instant)
    ensures var after := I.Next(weekOf, w, I.Check(c, appNow));
      if AtStep(w, c, true, I.Missed) || AtStep(w, c, false, I.Arrived)
      then && after == Going(w, c, w.db, if c in after.calls then after.calls[c].pc else I.Crashed) && c in after.calls
           && ChecksAs(weekOf, w.db, w.calls[c].user, w.calls[c].work, appNow, after.calls[c].pc)
      else after == w
  {
  }

  /** The UPDATE remembers which of the user's rows it saw running. */
  lemma UpdateContract(weekOf: WeekOf, w: I.World, c: I.CallId, now: Instant)
    ensures var after := I.Next(weekOf, w, I.Update(c, now));
      if !AtStep(w, c, true, I.Checked) then after == w
      else exists seen: set<EntryId> ::
        && after == Going(w, c, w.db, I.Stopping(seen, now))
        && forall id :: id in seen <==>
             id in w.db.entries && w.db.entries[id].user == w.calls[c].user && w.db.entries[id].status == Running
  {
    if AtStep(w, c, true, I.Checked) {
      var seen := I.RunningIds(w.db.entries, w.calls[c].user);
      assert I.Next(weekOf, w, I.Update(c, now)) == Going(w, c, w.db, I.Stopping(seen, now));
    }
  }

  /** What was seen running and still runs can be ended at `at`. */
  predicate CanEndSeen(entries: Entries, seen: set<EntryId>, at: Instant) {
    forall id :: id in seen && id in entries && entries[id].status == Running ==>
      entries[id].startAt <= at && SpanFree(entries, entries[id].user, entries[id].startAt, at)
  }

  predicate SeenStopped(a: Entries, b: Entries, seen: set<EntryId>, at: Instant) {
    forall id :: id in a ==>
      && id in b
      && if id in seen && a[id].status == Running then StoppedAt(a[id], b[id], at, None) else b[id] == a[id]
  }

  lemma SeenApart(entries: Entries, seen: set<EntryId>, at: Instant, i: EntryId, j: EntryId)
    requires i in entries && j in entries && i != j && !Overlap(entries[i], entries[j])
    requires RowsWellFormed(entries) && OneRunning(entries) && CanEndSeen(entries, seen, at)
    ensures var b := I.StopSeen(entries, seen, at); !Overlap(b[i], b[j])
  {
    if entries[i].status == Running && entries[j].status != Running && entries[i].user == entries[j].user {
      assert i in seen ==> SpanFree(entries, entries[i].user, entries[i].startAt, at);
    }
    if entries[j].status == Running && entries[i].status != Running && entries[i].user == entries[j].user {
      assert j in seen ==> SpanFree(entries, entries[j].user, entries[j].startAt, at);
    }
  }

  lemma SeenFits(entries: Entries, seen: set<EntryId>, at: Instant)
    requires Constraints(entries) && CanEndSeen(entries, seen, at)
    ensures Constraints(I.StopSeen(entries, seen, at))
  {
    var b := I.StopSeen(entries, seen, at);
    SeenRows(entries, seen, at);
    forall i, j | i in b && j in b && i != j ensures !Overlap(b[i], b[j]) {
      assert !Overlap(entries[i], entries[j]);
      SeenApart(entries, seen, at, i, j);
    }
  }

  lemma SeenRows(entries: Entries, seen: set<EntryId>, at: Instant)
    requires Constraints(entries) && CanEndSeen(entries, seen, at)
    ensures var b := I.StopSeen(entries, seen, at); RowsWellFormed(b) && OneRunning(b) && KeysUnique(b)
  {
  }

  lemma FittingSeen(entries: Entries, seen: set<EntryId>, at: Instant, id: EntryId)
    requires Constraints(entries) && Constraints(I.StopSeen(entries, seen, at))
    requires id in seen && id in entries && entries[id].status == Running
    ensures entries[id].startAt <= at && SpanFree(entries, entries[id].user, entries[id].startAt, at)
  {
    var b := I.StopSeen(entries, seen, at);
    assert RangeWellFormed(b[id]);
    forall j | j in entries && entries[j].user == entries[id].user && entries[j].endAt.Some?
      && entries[j].startAt < entries[j].endAt.value && entries[id].startAt < at
      ensures at <= entries[j].startAt || entries[j].endAt.value <= entries[id].startAt
    {
      assert EndMatchesStatus(entries[j]) && b[j] == entries[j];
      assert !Overlap(b[id], b[j]);
    }
  }

  lemma EndingSeenIff(entries: Entries, seen: set<EntryId>, at: Instant)
    requires Constraints(entries)
    ensures Constraints(I.StopSeen(entries, seen, at)) <==> CanEndSeen(entries, seen, at)
  {
    if CanEndSeen(entries, seen, at) {
      SeenFits(entries, seen, at);
    } else if Constraints(I.StopSeen(entries, seen, at)) {
      forall id | id in seen && id in entries && entries[id].status == Running
        ensures entries[id].startAt <= at && SpanFree(entries, entries[id].user, entries[id].startAt, at)
      {
        FittingSeen(entries, seen, at, id);
      }
    }
  }

  /** A timer of the user runs that was not seen. */
  predicate RunsUnseen(entries: Entries, user: UserId, seen: set<EntryId>) {
    exists id :: id in entries && id !in seen && entries[id].user == user && entries[id].status == Running
  }

  lemma SeenTimerFits(db: Db, user: UserId, key: string, body: Body, seen: set<EntryId>, at: Instant)
    requires Struct(db)
    ensures var entries := I.StopSeen(db.entries, seen, at)[db.nextId := NewTimer(user, key, body, at)];
      OneRunning(entries) && KeysUnique(entries) <==>
        !RunsUnseen(db.entries, user, seen) && !KeyUsed(db.entries, user, key)
  {
    I.RaceIff(db, user, key, body, seen, at);
    var stopped := I.StopSeen(db.entries, seen, at);
    var entries := stopped[db.nextId := NewTimer(user, key, body, at)];
    assert RunsUnseen(db.entries, user, seen) <==> !(I.RunningIds(db.entries, user) <= seen);
    if KeyUsed(db.entries, user, key) {
      var id :| id in db.entries && db.entries[id].user == user && db.entries[id].key == Some(key);
      assert entries[id].key == entries[db.nextId].key && entries[id].user == entries[db.nextId].user;
    } else {
      forall id | id in stopped ensures stopped[id].user != user || stopped[id].key != Some(key) {
        assert db.entries[id].user == stopped[id].user && db.entries[id].key == stopped[id].key;
      }
    }
  }

  /** What the commit of a timer call comes to. */
  predicate CommitsAs(weekOf: WeekOf, db: Db, user: UserId, key: string, body: Body, seen: set<EntryId>, at: Instant,
                      after: Db, pc: I.Pc) {
    if !CanEndSeen(db.entries, seen, at) then after == db && pc == I.Aborted(DbFault)
    else if WeekLocked(weekOf, db.periods, user, at) then after == db && pc == I.Aborted(Error.PeriodLocked)
    else if RunsUnseen(db.entries, user, seen) || KeyUsed(db.entries, user, key)
    then after == db && pc == I.Aborted(IdempotencyConflict)
    else
      var row := TimerRow(user, key, body, at);
      && pc == I.Committed(Row(db.nextId, row)) && after == db.(entries := after.entries, nextId := db.nextId + 1)
      && db.nextId !in db.entries && after.entries.Keys == db.entries.Keys + {db.nextId}
      && after.entries[db.nextId] == row && SeenStopped(db.entries, after.entries, seen, at)
  }

  lemma CommitIsAs(weekOf: WeekOf, db: Db, user: UserId, key: string, body: Body, seen: set<EntryId>, at: Instant)
    requires Struct(db)
    ensures var attempt := I.CommitTimer(weekOf, db, user, key, body, seen, at);
      CommitsAs(weekOf, db, user, key, body, seen, at, attempt.db, attempt.pc)
  {
    EndingSeenIff(db.entries, seen, at);
    SeenTimerFits(db, user, key, body, seen, at);
  }

  /** The commit stops what was seen and still runs, and inserts the new timer, all or nothing. */
  lemma CommitContract(weekOf: WeekOf, w: I.World, c: I.CallId)
    requires Struct(w.db)
    ensures var after := I.Next(weekOf, w, I.Commit(c));
      if !(c in w.calls && w.calls[c].work.TimerWork? && w.calls[c].pc.Stopping?) then after == w
      else
        var call := w.calls[c];
        && c in after.calls && after == Going(w, c, after.db, after.calls[c].pc)
        && CommitsAs(weekOf, w.db, call.user, call.work.key, call.work.body, call.pc.running, call.pc.at, after.db,
                     after.calls[c].pc)
  {
    if c in w.calls && w.calls[c].work.TimerWork? && w.calls[c].pc.Stopping? {
      var call := w.calls[c];
      CommitIsAs(weekOf, w.db, call.user, call.work.key, call.work.body, call.pc.running, call.pc.at);
    }
  }

  /** The store answers, and keeps the first row under a key. */
  lemma StoreReplyContract(weekOf: WeekOf, w: I.World, c: I.CallId)
    ensures var after := I.Next(weekOf, w, I.Store(c));
      if !(c in w.calls && w.calls[c].work.TimerWork? && w.calls[c].pc.Committed?) then after == w
      else
        var call := w.calls[c];
        var at := CacheKey(call.user, call.work.key);
        after == Going(w, c, if at in w.db.cache then w.db
                             else w.db.(cache := w.db.cache[at := Cached(StartBody(call.work.body), call.pc.reply)]),
                       I.Finished(call.pc.reply))
  {
  }

  /** What a manual write comes to, on the tables as they are now. */
  predicate WritesAs(weekOf: WeekOf, db: Db, user: UserId, work: I.Work, now: Instant, after: Db, pc: I.Pc) {
    match work
    case TimerWork(_, _) => true
    case CreateWork(m) =>
      var row := Entry(user, m.project, m.task, m.notes, m.startAt, Some(m.endAt), Draft,
                       m.billable.None? || m.billable.value, None, None, now, []);
      if WeekLocked(weekOf, db.periods, user, m.startAt) then after == db && pc == I.Aborted(Error.PeriodLocked)
      else if !RowFits(db.entries, db.nextId, row) then after == db && pc == I.Aborted(DbFault)
      else after == db.(entries := db.entries[db.nextId := row], nextId := db.nextId + 1) && pc == I.Written
    case EditWork(id, p, _) =>
      if id !in db.entries || p == Patch(None, None, None, None, None, None) then after == db && pc == I.Written
      else
        var e := db.entries[id];
        var asked := Asked(e, p, now);
        if asked.startAt != e.startAt && WeekLocked(weekOf, db.periods, e.user, asked.startAt)
        then after == db && pc == I.Aborted(Error.PeriodLocked)
        else if !RowFits(db.entries, id, asked) then after == db && pc == I.Aborted(DbFault)
        else after == db.(entries := db.entries[id := asked]) && pc == I.Written
    case RemoveWork(id) =>
      && pc == I.Written && after == db.(entries := after.entries) && after.entries.Keys == db.entries.Keys - {id}
      && forall other :: other in after.entries ==> after.entries[other] == db.entries[other]
  }

  lemma NewRowFitsIff(db: Db, e: Entry)
    requires Struct(db) && e.status == Draft && e.key.None?
    ensures Constraints(db.entries[db.nextId := e]) <==> RowFits(db.entries, db.nextId, e)
  {
    var b := db.entries[db.nextId := e];
    if RowFits(db.entries, db.nextId, e) {
      forall i, j | i in b && j in b && i != j ensures !Overlap(b[i], b[j]) {
        assert i != db.nextId && j != db.nextId ==> !Overlap(db.entries[i], db.entries[j]);
      }
      assert RowsWellFormed(b) && OneRunning(b) && KeysUnique(b);
    }
    if Constraints(b) {
      assert EndMatchesStatus(b[db.nextId]) && RangeWellFormed(b[db.nextId]);
      forall other | other in db.entries && other != db.nextId ensures !Overlap(b[db.nextId], b[other]) { }
    }
  }

  lemma WriteIsAs(weekOf: WeekOf, db: Db, user: UserId, work: I.Work, now: Instant)
    requires Struct(db)
    ensures var attempt := I.WriteNow(weekOf, db, user, work, now);
      WritesAs(weekOf, db, user, work, now, attempt.db, attempt.pc)
  {
    match work {
      case CreateWork(m) => NewRowFitsIff(db, ManualEntry(user, m, now));
      case EditWork(id, p, _) =>
        if id in db.entries { RowFitsIff(db.entries, id, Asked(db.entries[id], p, now)); }
      case _ =>
    }
  }

  /** The write of a checked manual request: one statement under the trigger and the constraints of the moment. */
  lemma WriteContract(weekOf: WeekOf, w: I.World, c: I.CallId, now: Instant)
    requires Struct(w.db)
    ensures var after := I.Next(weekOf, w, I.Write(c, now));
      if !AtStep(w, c, false, I.Checked) then after == w
      else
        && c in after.calls && after == Going(w, c, after.db, after.calls[c].pc)
        && WritesAs(weekOf, w.db, w.calls[c].user, w.calls[c].work, now, after.db, after.calls[c].pc)
  {
    if AtStep(w, c, false, I.Checked) { WriteIsAs(weekOf, w.db, w.calls[c].user, w.calls[c].work, now); }
  }

  /** A crash leaves the tables, and the call never goes on: none of its steps does anything any more. */
  lemma CrashContract(weekOf: WeekOf, w: I.World, c: I.CallId, now: Instant)
    requires c in w.calls
    ensures var after := I.Next(weekOf, w, I.Crash(c));
      && after == Going(w, c, w.db, I.Crashed)
      && forall ev ::
           ev in {I.LookUp(c), I.Check(c, now), I.Update(c, now), I.Commit(c), I.Store(c), I.Write(c, now)} ==>
             I.Next(weekOf, after, ev) == after
  {
  }

  /** A whole request leaves the tables as its contract says, and the calls under way where they are. */
  lemma WholeContract(weekOf: WeekOf, w: I.World, r: Request)
    ensures I.Next(weekOf, w, I.Whole(r)) == I.World(Handle(weekOf, w.db, r).db, w.calls)
  {
  }

  // --- approvals, unlocks and recomputes -----------------------------------------------------

  /** The world with `db` for tables and call `c` as `r`. */
  function OnCall(w: World, c: I.CallId, db: Db, r: Review): World {
    World(I.World(db, w.base.calls), w.reviews[c := r], w.txs)
  }

  lemma BeginContract(weekOf: WeekOf, w: World, c: I.CallId, r: Request)
    ensures Next(weekOf, w, Begin(c, r)) ==
      if c in w.reviews then w
      else
        match r
        case ManagerReq(actor, ids, approve, why, now) =>
          if ids == [] || (!approve && (why.None? || |why.value| < 10)) then w
          else
            var verdict := if approve then ManagerApproved else Rejected;
            OnCall(w, c, w.base.db, Review(Action(Status.Submitted, verdict, actor, why, now), ids, 0, 0, {}, Ready))
        case FinalReq(actor, ids, approve, why, now) =>
          if ids == [] || (!approve && (why.None? || |why.value| < 10)) then w
          else
            var verdict := if approve then FinalApproved else Rejected;
            OnCall(w, c, w.base.db, Review(Action(ManagerApproved, verdict, actor, why, now), ids, 0, 0, {}, Ready))
        case AdminUnlockReq(actor, id, reason, now) =>
          if |reason| < 20 then w
          else OnCall(w, c, w.base.db, Review(Action(FinalApproved, Draft, actor, Some(reason), now), [id], 0, 0, {},
                                              Ready))
        case _ => w
  {
  }

  /** The call is at `pc` with an entry to come. */
  predicate AtEntry(w: World, c: I.CallId, pc: Pc) {
    c in w.reviews && w.reviews[c].pc == pc && w.reviews[c].at < |w.reviews[c].ids|
  }

  /** Stage 2 reads who was last to approve the entry at stage 1. */
  lemma SelectContract(weekOf: WeekOf, w: World, c: I.CallId)
    ensures var after := Next(weekOf, w, Select(c));
      if !(AtEntry(w, c, Ready) && w.reviews[c].a.fromStatus == ManagerApproved) then after == w
      else
        var r := w.reviews[c];
        var id := r.ids[r.at];
        var own := id in w.base.db.entries && LastApprovedBy(w.base.db.entries[id].log, r.a.actor);
        after == OnCall(w, c, w.base.db, r.(pc := if own then Refused(Forbidden) else Selected))
  {
    if AtEntry(w, c, Ready) {
      var r := w.reviews[c];
      if r.ids[r.at] in w.base.db.entries { Stage1ActorIs(w.base.db.entries[r.ids[r.at]].log, r.a.actor); }
    }
  }

  /** The UPDATE: an approval takes an entry only from its stage, an unlock from any status but running, which the CHECK
      refuses; an entry it does not match stays. */
  lemma MoveContract(weekOf: WeekOf, w: World, c: I.CallId)
    requires Sane(w)
    ensures var after := Next(weekOf, w, Update(c));
      if !AtEntry(w, c, if c in w.reviews && w.reviews[c].a.fromStatus == ManagerApproved then Selected else Ready)
      then after == w
      else
        var r, entries := w.reviews[c], w.base.db.entries;
        var id, unlock := r.ids[r.at], r.a.toStatus == Draft;
        if id in entries && unlock && entries[id].status == Running then
          after == OnCall(w, c, w.base.db, r.(pc := Refused(DbFault)))
        else if id in entries && (unlock || entries[id].status == r.a.fromStatus) then
          after == OnCall(w, c, w.base.db.(entries := entries[id := entries[id].(status := r.a.toStatus,
                                                                                 updatedAt := r.a.now)]),
                          r.(pc := Updated))
        else after == OnCall(w, c, w.base.db, r.(pc := Updated))
  {
    if c in w.reviews && w.reviews[c].at < |w.reviews[c].ids| {
      var id := w.reviews[c].ids[w.reviews[c].at];
      if id in w.base.db.entries { assert EndMatchesStatus(w.base.db.entries[id]); }
    }
  }

  /** The INSERT of the history row, whether or not the UPDATE matched; without an entry the foreign key refuses. */
  lemma LogContract(weekOf: WeekOf, w: World, c: I.CallId)
    ensures var after := Next(weekOf, w, Log(c));
      if !AtEntry(w, c, Updated) then after == w
      else
        var r, entries := w.reviews[c], w.base.db.entries;
        var id := r.ids[r.at];
        if id !in entries then after == OnCall(w, c, w.base.db, r.(pc := Refused(DbFault)))
        else
          var row := Transition(r.a.fromStatus, r.a.toStatus, r.a.actor, r.a.reason);
          after == OnCall(w, c, w.base.db.(entries := entries[id := entries[id].(log := entries[id].log + [row])]),
                          r.(at := r.at + 1, pc := Ready))
  {
  }

  /** The recompute looks its entries up one by one and takes each week up once. */
  lemma ResolveContract(weekOf: WeekOf, w: World, c: I.CallId)
    ensures var after := Next(weekOf, w, Resolve(c));
      if !(&& c in w.reviews && w.reviews[c].pc == Ready && w.reviews[c].at == |w.reviews[c].ids|
           && w.reviews[c].done < |w.reviews[c].ids|)
      then after == w
      else
        var r, entries := w.reviews[c], w.base.db.entries;
        var id := r.ids[r.done];
        if id !in entries then after == OnCall(w, c, w.base.db, r.(done := r.done + 1))
        else
          var k := PeriodKey(entries[id].user, weekOf(entries[id].user, entries[id].startAt));
          after == OnCall(w, c, w.base.db, if k in r.seen then r.(done := r.done + 1)
                                           else r.(seen := r.seen + {k}, pc := Resolved(k)))
  {
  }

  lemma CountContract(weekOf: WeekOf, w: World, c: I.CallId, st: PeriodStatus)
    ensures var after := Next(weekOf, w, Count(c));
      if !(c in w.reviews && w.reviews[c].pc.Resolved?) then after == w
      else
        var k := w.reviews[c].pc.week;
        Gives(weekOf, w.base.db.entries, k, st) <==>
        after == OnCall(w, c, w.base.db, w.reviews[c].(pc := Counted(k, st)))
  {
    if c in w.reviews && w.reviews[c].pc.Resolved? {
      RollupIsGiven(weekOf, w.base.db.entries, w.reviews[c].pc.week, st);
      assert Next(weekOf, w, Count(c)).reviews[c].pc
        == Counted(w.reviews[c].pc.week, RollupOf(weekOf, w.base.db.entries, w.reviews[c].pc.week));
    }
  }

  lemma PeekContract(weekOf: WeekOf, w: World, c: I.CallId)
    ensures var after := Next(weekOf, w, Peek(c));
      if !(c in w.reviews && w.reviews[c].pc.Counted?) then after == w
      else
        var r, row := w.reviews[c], RowAt(w.base.db.periods, w.reviews[c].pc.week);
        after == OnCall(w, c, w.base.db, r.(pc := Peeked(r.pc.week, r.pc.st,
                                                         if row.Some? then Some(row.value.status) else None)))
  {
  }

  /** A week's row after the INSERT or UPDATE that stores `st`, by what the lookup had found. An INSERT that meets a row
      sets its status and nothing else. */
  predicate StoredAs(before: Option<Period>, after: Option<Period>, st: PeriodStatus, prior: Option<PeriodStatus>,
                     now: Instant) {
    if prior.None? then
      after == if st == Open then before
               else if before.Some? then Some(before.value.(status := st))
               else Some(Period(st, None, None,
                                if st == PManagerApproved || st == PFinalApproved then Some(now) else None,
                                if st == PFinalApproved then Some(now) else None, None))
    else if before.None? then after.None?
    else
      && after.Some? && after.value.status == st
      && after.value.submittedAt == before.value.submittedAt && after.value.submittedBy == before.value.submittedBy
      && StampFollows(before.value.managerApprovedAt, st == PManagerApproved || st == PFinalApproved,
                      after.value.managerApprovedAt, now)
      && StampFollows(before.value.finalApprovedAt, st == PFinalApproved, after.value.finalApprovedAt, now)
      && after.value.reopenedAt ==
           if prior.value in {PSubmitted, PManagerApproved, PFinalApproved} && st == Open then Some(now)
           else before.value.reopenedAt
  }

  lemma StoreRowIsStored(periods: Periods, k: PeriodKey, st: PeriodStatus, prior: Option<PeriodStatus>, now: Instant)
    ensures var after := StoreRow(periods, k, st, prior, now);
      && StoredAs(RowAt(periods, k), RowAt(after, k), st, prior, now)
      && forall other :: other != k ==> RowAt(after, other) == RowAt(periods, other)
  {
  }

  lemma StoreContract(weekOf: WeekOf, w: World, c: I.CallId)
    ensures var after := Next(weekOf, w, Store(c));
      if !(c in w.reviews && w.reviews[c].pc.Peeked?) then after == w
      else
        var r, db := w.reviews[c], after.base.db;
        && after == OnCall(w, c, w.base.db.(periods := db.periods), r.(done := r.done + 1, pc := Ready))
        && StoredAs(RowAt(w.base.db.periods, r.pc.week), RowAt(db.periods, r.pc.week), r.pc.st, r.pc.prior, r.a.now)
        && forall other :: other != r.pc.week ==> RowAt(db.periods, other) == RowAt(w.base.db.periods, other)
  {
    if c in w.reviews && w.reviews[c].pc.Peeked? {
      var r := w.reviews[c];
      StoreRowIsStored(w.base.db.periods, r.pc.week, r.pc.st, r.pc.prior, r.a.now);
    }
  }

  /** A call that dies leaves the tables, and none of its statements does anything any more. */
  lemma DieContract(weekOf: WeekOf, w: World, c: I.CallId, ev: Event)
    requires c in w.reviews && CallOf(ev) == Some(c) && !ev.Die?
    ensures var after := Next(weekOf, w, Die(c));
      after == OnCall(w, c, w.base.db, w.reviews[c].(pc := Died)) && Next(weekOf, after, ev) == after
  {
  }

  // --- transactions ------------------------------------------------------------------------

  /** The week of a submit or a week's unlock, if the request gets as far as a transaction that can commit. */
  function TxWeek(weekOf: WeekOf, db: Db, r: Request): Option<PeriodKey> {
    match r
    case SubmitReq(user, id, wholeWeek, token, _) =>
      if id !in db.entries || db.entries[id].user != user then None
      else
        var week := if wholeWeek && token.Some? then token.value else weekOf(user, db.entries[id].startAt);
        if week.isoWeek < 1 || week.isoWeek > 53 || week.isoYear == 0 then None else Some(PeriodKey(user, week))
    case UnlockWeekReq(_, k, reason, _) => if |reason| < 20 then None else Some(k)
    case _ => None
  }

  /** The request writes this row. */
  predicate TxTakes(weekOf: WeekOf, e: Entry, id: EntryId, r: Request, k: PeriodKey)
    requires r.SubmitReq? || r.UnlockWeekReq?
  {
    if r.SubmitReq? then IsFor(weekOf, e, id, r.id, r.wholeWeek, k) && e.status == Draft
    else InWeek(weekOf, e, k) && FiledStatus(e.status)
  }

  /** What it makes of its rows of the week, `b` of `a`; a row that is no longer as it was taken stays. */
  predicate TxMakes(weekOf: WeekOf, a: Entries, b: Entries, r: Request, k: PeriodKey, ids: set<EntryId>)
    requires r.SubmitReq? || r.UnlockWeekReq?
  {
    && b.Keys == a.Keys
    && forall id :: id in a ==>
         if id in ids && InWeek(weekOf, a[id], k) && (if r.SubmitReq? then a[id].status == Draft
                                                      else FiledStatus(a[id].status))
         then if r.SubmitReq? then Filed1(a[id], b[id], r.user, r.now)
              else BackToDraft(a[id], b[id], a[id].status, r.actor, r.reason, r.now)
         else b[id] == a[id]
  }

  lemma TxEntriesMake(weekOf: WeekOf, a: Entries, r: Request, k: PeriodKey, ids: set<EntryId>)
    requires r.SubmitReq? || r.UnlockWeekReq?
    ensures TxMakes(weekOf, a, TxEntries(weekOf, a, r, k, ids), r, k, ids)
  {
  }

  /** The row that the transaction finds: a submit has stamped it. */
  function TxRow(periods: Periods, r: Request, k: PeriodKey): Option<Period> {
    if r.SubmitReq? then Some(Stamped(RowAt(periods, k), r.user, r.now)) else RowAt(periods, k)
  }

  /** What a transaction has counted when it is about to commit. */
  ghost predicate TxCounted(weekOf: WeekOf, db: Db, r: Request, k: PeriodKey, tx: Tx)
    requires r.SubmitReq? || r.UnlockWeekReq?
  {
    && tx.request == r && tx.week == k
    && (forall id :: id in tx.ids <==> id in db.entries && TxTakes(weekOf, db.entries[id], id, r, k))
    && (exists seen :: TxMakes(weekOf, db.entries, seen, r, k, tx.ids) && Gives(weekOf, seen, k, tx.st))
    && tx.prior == if TxRow(db.periods, r, k).Some? then Some(TxRow(db.periods, r, k).value.status) else None
  }

  lemma TxWeekIs(weekOf: WeekOf, db: Db, r: Request)
    ensures TxWeek(weekOf, db, r).Some? <==> Transacts(weekOf, db, r)
    ensures Transacts(weekOf, db, r) ==> TxWeek(weekOf, db, r) == Some(WeekOfTx(weekOf, db, r))
  {
  }

  lemma TxIdsAre(weekOf: WeekOf, db: Db, r: Request, id: EntryId)
    requires Transacts(weekOf, db, r)
    ensures id in IdsOfTx(weekOf, db, r) <==>
      id in db.entries && TxTakes(weekOf, db.entries[id], id, r, WeekOfTx(weekOf, db, r))
  {
  }

  lemma TxPriorIs(periods: Periods, r: Request, k: PeriodKey)
    requires r.SubmitReq? || r.UnlockWeekReq?
    ensures var row := TxRow(periods, r, k);
      PriorOf(TxPeriods(periods, r, k), k) == if row.Some? then Some(row.value.status) else None
  {
  }

  lemma TransactedIsCounted(weekOf: WeekOf, db: Db, r: Request)
    requires Transacts(weekOf, db, r)
    ensures TxCounted(weekOf, db, r, WeekOfTx(weekOf, db, r), Transacted(weekOf, db, r))
  {
    var k, ids := WeekOfTx(weekOf, db, r), IdsOfTx(weekOf, db, r);
    var seen := TxEntries(weekOf, db.entries, r, k, ids);
    forall id ensures id in ids <==> id in db.entries && TxTakes(weekOf, db.entries[id], id, r, k) {
      TxIdsAre(weekOf, db, r, id);
    }
    TxPriorIs(db.periods, r, k);
    TxEntriesMake(weekOf, db.entries, r, k, ids);
    RollupIsGiven(weekOf, seen, k, RollupOf(weekOf, seen, k));
    assert TxMakes(weekOf, db.entries, seen, r, k, ids) && Gives(weekOf, seen, k, RollupOf(weekOf, seen, k));
  }

  lemma TransactContract(weekOf: WeekOf, w: World, t: I.CallId, r: Request)
    ensures var after := Next(weekOf, w, Transact(t, r));
      if t in w.txs || TxWeek(weekOf, w.base.db, r).None? then after == w
      else
        && t in after.txs && after == World(w.base, w.reviews, w.txs[t := after.txs[t]])
        && TxCounted(weekOf, w.base.db, r, TxWeek(weekOf, w.base.db, r).value, after.txs[t])
  {
    TxWeekIs(weekOf, w.base.db, r);
    if t !in w.txs && Transacts(weekOf, w.base.db, r) {
      TransactIs(weekOf, w, t, r);
      TransactedIsCounted(weekOf, w.base.db, r);
    }
  }

  /** The commit: its rows and its week's row as stored with what it had counted, all at once. */
  lemma CommitTxContract(weekOf: WeekOf, w: World, t: I.CallId)
    ensures var after := Next(weekOf, w, Commit(t));
      if !(t in w.txs && (w.txs[t].request.SubmitReq? || w.txs[t].request.UnlockWeekReq?)) then after == w
      else
        var tx, before, db := w.txs[t], w.base.db, after.base.db;
        && after == World(I.World(before.(entries := db.entries, periods := db.periods), w.base.calls), w.reviews,
                          w.txs - {t})
        && TxMakes(weekOf, before.entries, db.entries, tx.request, tx.week, tx.ids)
        && StoredAs(TxRow(before.periods, tx.request, tx.week), RowAt(db.periods, tx.week), tx.st, tx.prior,
                    tx.request.now)
        && forall other :: other != tx.week ==> RowAt(db.periods, other) == RowAt(before.periods, other)
  {
    if t in w.txs && (w.txs[t].request.SubmitReq? || w.txs[t].request.UnlockWeekReq?) {
      CommittedIs(weekOf, w.base.db, w.txs[t]);
      CommitIs(weekOf, w, t);
    }
  }

  lemma CommittedIs(weekOf: WeekOf, db: Db, tx: Tx)
    requires tx.request.SubmitReq? || tx.request.UnlockWeekReq?
    ensures var after := Committed(weekOf, db, tx);
      && after == db.(entries := after.entries, periods := after.periods)
      && TxMakes(weekOf, db.entries, after.entries, tx.request, tx.week, tx.ids)
      && StoredAs(TxRow(db.periods, tx.request, tx.week), RowAt(after.periods, tx.week), tx.st, tx.prior,
                  tx.request.now)
      && forall other :: other != tx.week ==> RowAt(after.periods, other) == RowAt(db.periods, other)
  {
    var stamped := TxPeriods(db.periods, tx.request, tx.week);
    TxEntriesMake(weekOf, db.entries, tx.request, tx.week, tx.ids);
    StoreRowIsStored(stamped, tx.week, tx.st, tx.prior, tx.request.now);
  }

  lemma RollbackContract(weekOf: WeekOf, w: World, t: I.CallId)
    ensures Next(weekOf, w, Rollback(t)) == if t in w.txs then World(w.base, w.reviews, w.txs - {t}) else w
  {
  }

  /** Anything else goes on below, unless it is a whole request that recomputes. */
  lemma OtherContract(weekOf: WeekOf, w: World, ev: I.Event)
    ensures Next(weekOf, w, Other(ev)) ==
      if ev.Whole? && (ev.request.ManagerReq? || ev.request.FinalReq? || ev.request.AdminUnlockReq?
                       || ev.request.SubmitReq? || ev.request.UnlockWeekReq?)
      then w else World(I.Next(weekOf, w.base, ev), w.reviews, w.txs)
  {
  }
}
