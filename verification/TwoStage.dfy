/** Separation of the two approval stages, over every run. */
module TwoStage {
  import opened Tables
  import opened Requests
  import opened Batches
  import opened LockSoundness

  /** Past stage 1. */
  predicate PastStage1(s: Status) {
    s.ManagerApproved? || s.FinalApproved?
  }

  // --- what one request does to one entry's status and history -------------------------------

  /** Outside the batches, an entry never enters stage 1 or 2 and its latest stage-1 row stays. */
  predicate OrdinaryMove(e: Entry, f: Entry) {
    Stage1Actor(f.log) == Stage1Actor(e.log) && (f.status == e.status || !PastStage1(f.status))
  }

  predicate Born(f: Entry) {
    !PastStage1(f.status) && Stage1Actor(f.log).None?
  }

  predicate OrdinaryMoves(a: Entries, b: Entries) {
    forall id :: id in b ==> if id in a then OrdinaryMove(a[id], b[id]) else Born(b[id])
  }

  lemma AppendedRow(log: seq<Transition>, t: Transition)
    ensures Stage1Actor(log + [t]) == if t.toStatus.ManagerApproved? then Some(t.actor) else Stage1Actor(log)
  {
    assert (log + [t])[..|log|] == log;
  }

  lemma StopMoves(a: Entries, user: UserId, notes: Option<string>, now: Instant)
    ensures OrdinaryMoves(a, StopRunning(a, user, notes, now))
  {
  }

  lemma SubmitMoves(a: Entries, ids: set<EntryId>, user: UserId, now: Instant)
    ensures OrdinaryMoves(a, SubmitEntries(a, ids, user, now))
  {
    forall id | id in a { AppendedRow(a[id].log, Transition(Draft, Status.Submitted, user, None)); }
  }

  lemma UnlockWeekMoves(weekOf: WeekOf, a: Entries, k: PeriodKey, actor: UserId, reason: string, now: Instant)
    ensures OrdinaryMoves(a, UnlockEntries(weekOf, a, k, actor, reason, now))
  {
    forall id | id in a { AppendedRow(a[id].log, Transition(a[id].status, Draft, actor, Some(reason))); }
  }

  lemma TimersMove(weekOf: WeekOf, db: Db, r: Request)
    requires db.nextId !in db.entries
    requires r.StartReq? || r.SwitchReq? || r.StopReq? || r.CleanupReq?
    ensures OrdinaryMoves(db.entries, Step(weekOf, db, r).entries)
  {
    if r.StartReq? || r.SwitchReq? {
      StartShape(weekOf, db, r.user, r.key, if r.StartReq? then r.body else r.body.(mood := None), r.appNow, r.now);
      StopMoves(db.entries, r.user, None, r.now);
    } else {
      StopShape(weekOf, db, r);
      if r.StopReq? { StopMoves(db.entries, r.user, r.notes, r.now); }
    }
  }

  lemma WritesMove(weekOf: WeekOf, db: Db, r: Request)
    requires db.nextId !in db.entries && (r.CreateReq? || r.EditReq? || r.RemoveReq?)
    ensures OrdinaryMoves(db.entries, Step(weekOf, db, r).entries)
  {
    if r.EditReq? { EditShape(weekOf, db, r.user, r.id, r.patch, r.canSee, r.now); }
  }

  lemma StatusRequestsMove(weekOf: WeekOf, db: Db, r: Request)
    requires r.SubmitReq? || r.AdminUnlockReq? || r.UnlockWeekReq?
    ensures OrdinaryMoves(db.entries, Step(weekOf, db, r).entries)
  {
    if Handle(weekOf, db, r).outcome.Done? {
      match r {
        case SubmitReq(user, id, wholeWeek, token, now) =>
          var k := SubmitTarget(weekOf, db.entries[id], wholeWeek, token);
          SubmitMoves(db.entries, SubmitIds(weekOf, db.entries, id, k, wholeWeek), user, now);
        case AdminUnlockReq(actor, id, reason, now) =>
          AppendedRow(db.entries[id].log, Transition(FinalApproved, Draft, actor, Some(reason)));
        case UnlockWeekReq(actor, k, reason, now) => UnlockWeekMoves(weekOf, db.entries, k, actor, reason, now);
      }
    }
  }

  predicate IsBatch(r: Request) {
    r.ManagerReq? || r.FinalReq?
  }

  function VerdictOf(r: Request): Action
    requires IsBatch(r)
  {
    if r.ManagerReq? then ManagerVerdict(r.actor, r.approve, r.why, r.now)
      else FinalVerdict(r.actor, r.approve, r.why, r.now)
  }

  /** The ids a batch request gets to. */
  function Named(db: Db, r: Request): seq<EntryId>
    requires IsBatch(r)
  {
    if r.ids == [] || ReasonMissing(r.approve, r.why) then [] else r.ids[..FirstStop(db.entries, r.ids, VerdictOf(r))]
  }

  /** The latest stage-1 row after `n` touches. */
  lemma {:induction false} TouchedStage1(a: Action, e: Entry, n: nat)
    requires Verdict(a)
    ensures Stage1Actor(TouchedTimes(a, e, n).log)
         == if n > 0 && a.toStatus.ManagerApproved? then Some(a.actor) else Stage1Actor(e.log)
  {
    if n > 0 {
      TouchedStage1(a, e, n - 1);
      AppendedRow(TouchedTimes(a, e, n - 1).log, Transition(a.fromStatus, a.toStatus, a.actor, a.reason));
    }
  }

  /** What a batch request does to an entry: a move along its verdict if it is named at that stage, and a
      stage-1 row for every approval, whether or not it moved. */
  lemma BatchMoves(weekOf: WeekOf, db: Db, r: Request, id: EntryId)
    requires IsBatch(r)
    ensures Step(weekOf, db, r).entries.Keys == db.entries.Keys
    ensures id in db.entries ==>
      var e, f, a := db.entries[id], Step(weekOf, db, r).entries[id], VerdictOf(r);
      && f.status == (if id in Named(db, r) && e.status == a.fromStatus then a.toStatus else e.status)
      && Stage1Actor(f.log)
           == (if id in Named(db, r) && a.toStatus.ManagerApproved? then Some(r.actor) else Stage1Actor(e.log))
      && (id in Named(db, r) ==> !Blocked(a, e))
  {
    var a := VerdictOf(r);
    if !(r.ids == [] || ReasonMissing(r.approve, r.why)) {
      BatchKeys(db.entries, r.ids, a);
      var n := BatchStopsAt(db.entries, r.ids, a);
      FirstStopIs(db.entries, r.ids, a, n);
      if id in db.entries {
        var named := r.ids[..n];
        var count := multiset(named)[id];
        assert count > 0 <==> id in named by { assert id in named <==> id in multiset(named); }
        TouchedTimesIs(a, db.entries[id], count);
        TouchedStage1(a, db.entries[id], count);
        if id in named { var i :| 0 <= i < |named| && named[i] == id; assert Passes(db.entries, named[i], a); }
      }
    }
  }

  lemma OrdinaryStep(weekOf: WeekOf, db: Db, r: Request)
    requires !IsBatch(r) && db.nextId !in db.entries
    ensures OrdinaryMoves(db.entries, Step(weekOf, db, r).entries)
  {
    if r.StartReq? || r.SwitchReq? || r.StopReq? || r.CleanupReq? { TimersMove(weekOf, db, r); }
    else if r.CreateReq? || r.EditReq? || r.RemoveReq? { WritesMove(weekOf, db, r); }
    else { StatusRequestsMove(weekOf, db, r); }
  }

  // --- the recorded actor ------------------------------------------------------------------

  /** An entry past stage 1 has a stage-1 row. */
  predicate Recorded(e: Entry) {
    PastStage1(e.status) ==> Stage1Actor(e.log).Some?
  }

  predicate AllRecorded(entries: Entries) {
    forall id :: id in entries ==> Recorded(entries[id])
  }

  lemma RecordedStep(weekOf: WeekOf, db: Db, r: Request)
    requires AllRecorded(db.entries) && db.nextId !in db.entries
    ensures AllRecorded(Step(weekOf, db, r).entries)
  {
    var after := Step(weekOf, db, r).entries;
    if IsBatch(r) {
      forall id | id in after ensures Recorded(after[id]) { BatchMoves(weekOf, db, r, id); }
    } else {
      OrdinaryStep(weekOf, db, r);
    }
  }

  lemma {:induction false} RunsRecord(weekOf: WeekOf, rs: seq<Request>)
    ensures AllRecorded(Run(weekOf, rs).entries)
  {
    if rs != [] {
      RunsRecord(weekOf, rs[..|rs| - 1]);
      RunsKeepBase(weekOf, rs[..|rs| - 1]);
      RecordedStep(weekOf, Run(weekOf, rs[..|rs| - 1]), rs[|rs| - 1]);
    }
  }

  /** The request takes the entry to final_approved. */
  ghost predicate Finalizes(weekOf: WeekOf, db: Db, r: Request, id: EntryId) {
    var after := Step(weekOf, db, r).entries;
    id in after && after[id].status.FinalApproved? && (id in db.entries ==> !db.entries[id].status.FinalApproved?)
  }

  lemma OnlyFinalApprovalFinalizes(weekOf: WeekOf, db: Db, r: Request, id: EntryId)
    requires db.nextId !in db.entries && AllRecorded(db.entries) && Finalizes(weekOf, db, r, id)
    ensures r.FinalReq? && r.approve && id in db.entries && db.entries[id].status.ManagerApproved?
    ensures Stage1Actor(db.entries[id].log).Some? && Stage1Actor(db.entries[id].log).value != r.actor
  {
    if IsBatch(r) { BatchMoves(weekOf, db, r, id); } else { OrdinaryStep(weekOf, db, r); }
  }

  /** In every run, an entry becomes final_approved only by a stage-2 approval of someone other than the actor
      of its latest recorded stage-1 approval, and there is such a record. */
  lemma FinalApprovalIsSomeoneElse(weekOf: WeekOf, rs: seq<Request>, r: Request, id: EntryId)
    requires var db := Run(weekOf, rs); Finalizes(weekOf, db, r, id)
    ensures var db := Run(weekOf, rs);
      && r.FinalReq? && r.approve && id in db.entries && db.entries[id].status.ManagerApproved?
      && exists stage1 :: Stage1Actor(db.entries[id].log) == Some(stage1) && stage1 != r.actor
  {
    RunsRecord(weekOf, rs);
    RunsKeepBase(weekOf, rs);
    OnlyFinalApprovalFinalizes(weekOf, Run(weekOf, rs), r, id);
  }

  // --- the real mover ----------------------------------------------------------------------

  /** The request really takes the entry through stage 1. */
  ghost predicate Promotes(weekOf: WeekOf, db: Db, r: Request, id: EntryId) {
    && r.ManagerReq? && id in db.entries && db.entries[id].status.Submitted?
    && id in Step(weekOf, db, r).entries && Step(weekOf, db, r).entries[id].status.ManagerApproved?
  }

  /** Who last really took each entry through stage 1, whatever the history rows say. */
  ghost function Movers(weekOf: WeekOf, rs: seq<Request>): map<EntryId, UserId> {
    if rs == [] then map[]
    else
      var before, r, m := Run(weekOf, rs[..|rs| - 1]), rs[|rs| - 1], Movers(weekOf, rs[..|rs| - 1]);
      NextMovers(weekOf, before, r, m)
  }

  ghost function NextMovers(weekOf: WeekOf, db: Db, r: Request, m: map<EntryId, UserId>): map<EntryId, UserId> {
    map id | id in m.Keys + db.entries.Keys && (id in m || Promotes(weekOf, db, r, id))
      :: if r.ManagerReq? && Promotes(weekOf, db, r, id) then r.actor else m[id]
  }

  /** The latest stage-1 row of the entry names its real mover. */
  predicate RowIsMover(m: map<EntryId, UserId>, id: EntryId, e: Entry) {
    PastStage1(e.status) ==> id in m && Stage1Actor(e.log) == Some(m[id])
  }

  predicate AllRowsAreMovers(m: map<EntryId, UserId>, entries: Entries) {
    forall id :: id in entries ==> RowIsMover(m, id, entries[id])
  }

  /** A stage-1 approval batch that names only submitted entries, as the approval queue offers them. */
  predicate Disciplined(db: Db, r: Request) {
    r.ManagerReq? && r.approve ==> forall i :: 0 <= i < |r.ids| && r.ids[i] in db.entries ==>
      db.entries[r.ids[i]].status.Submitted?
  }

  /** For one entry past stage 1: its latest stage-1 row still names the real mover after a stage-1 batch iff
      the batch did not get to it, rejects, or is the mover's own. */
  lemma PhantomRowIff(weekOf: WeekOf, db: Db, r: Request, m: map<EntryId, UserId>, id: EntryId)
    requires r.ManagerReq? && id in db.entries && PastStage1(db.entries[id].status) && RowIsMover(m, id, db.entries[id])
    ensures var after := Step(weekOf, db, r).entries;
      && id in after && PastStage1(after[id].status)
      && (RowIsMover(NextMovers(weekOf, db, r, m), id, after[id])
          <==> (id !in Named(db, r) || !r.approve || r.actor == m[id]))
  {
    BatchMoves(weekOf, db, r, id);
  }

  lemma DisciplinedNames(db: Db, r: Request, id: EntryId)
    requires Disciplined(db, r) && r.ManagerReq? && r.approve && id in Named(db, r) && id in db.entries
    ensures db.entries[id].status.Submitted?
  {
    var i :| 0 <= i < |Named(db, r)| && Named(db, r)[i] == id;
    assert r.ids[i] == id;
  }

  lemma MoversStep(weekOf: WeekOf, db: Db, r: Request, m: map<EntryId, UserId>)
    requires db.nextId !in db.entries && AllRowsAreMovers(m, db.entries) && Disciplined(db, r)
    ensures AllRowsAreMovers(NextMovers(weekOf, db, r, m), Step(weekOf, db, r).entries)
  {
    var after := Step(weekOf, db, r).entries;
    var next := NextMovers(weekOf, db, r, m);
    forall id | id in after ensures RowIsMover(next, id, after[id]) {
      if IsBatch(r) {
        BatchMoves(weekOf, db, r, id);
        if r.ManagerReq? && r.approve && id in Named(db, r) { DisciplinedNames(db, r, id); }
      } else {
        OrdinaryStep(weekOf, db, r);
      }
    }
  }

  ghost predicate AllDisciplined(weekOf: WeekOf, rs: seq<Request>) {
    rs == [] || (AllDisciplined(weekOf, rs[..|rs| - 1]) && Disciplined(Run(weekOf, rs[..|rs| - 1]), rs[|rs| - 1]))
  }

  lemma {:induction false} RowsNameMovers(weekOf: WeekOf, rs: seq<Request>)
    requires AllDisciplined(weekOf, rs)
    ensures AllRowsAreMovers(Movers(weekOf, rs), Run(weekOf, rs).entries)
  {
    if rs != [] {
      var front := rs[..|rs| - 1];
      RowsNameMovers(weekOf, front);
      RunsKeepBase(weekOf, front);
      MoversStep(weekOf, Run(weekOf, front), rs[|rs| - 1], Movers(weekOf, front));
    }
  }

  /** Two-stage separation. When stage-1 approvals name only submitted entries, nobody finalizes an entry they
      themselves took through stage 1, across any number of unlock and resubmit rounds. */
  lemma TwoStageSeparation(weekOf: WeekOf, rs: seq<Request>, r: Request, id: EntryId)
    requires AllDisciplined(weekOf, rs)
    requires var db := Run(weekOf, rs); Finalizes(weekOf, db, r, id)
    ensures r.FinalReq? && id in Movers(weekOf, rs) && Movers(weekOf, rs)[id] != r.actor
  {
    RowsNameMovers(weekOf, rs);
    FinalApprovalIsSomeoneElse(weekOf, rs, r, id);
    assert RowIsMover(Movers(weekOf, rs), id, Run(weekOf, rs).entries[id]);
  }
}
