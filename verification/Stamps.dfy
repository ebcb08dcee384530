/** The timestamps of a stored period, over every run. */
module Stamps {
  import opened Tables
  import opened Rollup
  import opened PeriodRows
  import opened Requests
  import opened LockSoundness
  import opened FrozenWeeks

  /** Each approval stamp is set exactly while its stage is reached, stage 1 no later than stage 2. */
  predicate StampsOk(p: Period, clock: Instant) {
    && (p.managerApprovedAt.Some? <==> Approved(p.status))
    && (p.finalApprovedAt.Some? <==> p.status.PFinalApproved?)
    && (p.managerApprovedAt.Some? ==> p.managerApprovedAt.value <= clock)
    && (p.finalApprovedAt.Some? ==> p.managerApprovedAt.value <= p.finalApprovedAt.value <= clock)
  }

  predicate AllStampsOk(db: Db, clock: Instant) {
    forall k :: k in db.periods ==> StampsOk(db.periods[k], clock)
  }

  /** How the stamps of a row may move in one request at `now`. */
  predicate StampsMove(p: Period, q: Period, now: Instant) {
    && q.managerApprovedAt
         == (if !Approved(q.status) then None else if Approved(p.status) then p.managerApprovedAt else Some(now))
    && q.finalApprovedAt
         == (if !q.status.PFinalApproved? then None else if p.status.PFinalApproved? then p.finalApprovedAt
           else Some(now))
    && q.reopenedAt == (if LockedPeriod(p.status) && q.status.Open? then Some(now) else p.reopenedAt)
    && (p.submittedAt.Some? ==> q.submittedAt == p.submittedAt)
    && (p.submittedBy.Some? ==> q.submittedBy == p.submittedBy)
  }

  /** A week that has no row yet moves as an open one without stamps. */
  function RowOrOpen(periods: Periods, k: PeriodKey): Period {
    if k in periods then periods[k] else Period(Open, None, None, None, None, None)
  }

  /** A row is left alone, or recomputed after at most a submission stamp. */
  predicate RowMove(p: Period, q: Period, now: Instant) {
    || q == p
    || (&& q == UpdatedRow(p.(submittedAt := q.submittedAt, submittedBy := q.submittedBy), q.status, now)
        && (p.submittedAt.Some? ==> q.submittedAt == p.submittedAt)
        && (p.submittedBy.Some? ==> q.submittedBy == p.submittedBy))
  }

  lemma RowMoveKeepsStamps(p: Period, q: Period, clock: Instant, now: Instant)
    requires RowMove(p, q, now) && StampsOk(p, clock) && clock <= now
    ensures StampsOk(q, now) && StampsMove(p, q, now)
  {
  }

  lemma ManyMoves(weekOf: WeekOf, entries: Entries, periods: Periods, keys: set<PeriodKey>, now: Instant)
    ensures var after := RecomputeMany(weekOf, entries, periods, keys, now);
      && (forall k :: k in periods ==> k in after)
      && (forall k :: k in after ==> RowMove(RowOrOpen(periods, k), after[k], now))
  {
  }

  lemma SubmitMoves(weekOf: WeekOf, entries: Entries, periods: Periods, key: PeriodKey, user: UserId, now: Instant)
    ensures var after := RecomputeMany(weekOf, entries, StampSubmission(periods, key, user, now), {key}, now);
      && (forall k :: k in periods ==> k in after)
      && (forall k :: k in after ==> RowMove(RowOrOpen(periods, k), after[k], now))
  {
    var stamped := StampSubmission(periods, key, user, now);
    var after := RecomputeMany(weekOf, entries, stamped, {key}, now);
    forall k | k in after ensures RowMove(RowOrOpen(periods, k), after[k], now) {
      if k == key { assert after[k] == UpdatedRow(stamped[k], RollupOf(weekOf, entries, k), now); }
    }
  }

  predicate RowsMove(before: Periods, after: Periods, now: Instant) {
    && (forall k :: k in before ==> k in after)
    && (forall k :: k in after ==> RowMove(RowOrOpen(before, k), after[k], now))
  }

  lemma RequestMovesRows(weekOf: WeekOf, db: Db, r: Request)
    ensures RowsMove(db.periods, Step(weekOf, db, r).periods, r.now)
  {
    var after := Step(weekOf, db, r);
    if Quiet(r) {
      QuietPeriods(weekOf, db, r);
    } else if Handle(weekOf, db, r).outcome.Done? {
      match r {
        case SubmitReq(user, id, wholeWeek, token, now) =>
          SubmitMoves(weekOf, after.entries, db.periods, SubmitTarget(weekOf, db.entries[id], wholeWeek, token), user,
            now);
        case ManagerReq(_, ids, _, _, now) =>
          ManyMoves(weekOf, after.entries, db.periods, AffectedWeeks(weekOf, after.entries, ids), now);
        case FinalReq(_, ids, _, _, now) =>
          ManyMoves(weekOf, after.entries, db.periods, AffectedWeeks(weekOf, after.entries, ids), now);
        case AdminUnlockReq(_, id, _, now) =>
          ManyMoves(weekOf, after.entries, db.periods, {KeyOf(weekOf, after.entries[id])}, now);
        case UnlockWeekReq(_, k, _, now) => ManyMoves(weekOf, after.entries, db.periods, {k}, now);
      }
    }
  }

  /** One request: stamps stay well placed and move only as the status does; no row disappears. */
  lemma StampStep(weekOf: WeekOf, db: Db, r: Request, clock: Instant)
    requires AllStampsOk(db, clock) && clock <= r.now
    ensures var after := Step(weekOf, db, r);
      && AllStampsOk(after, r.now)
      && (forall k :: k in db.periods ==> k in after.periods)
      && (forall k :: k in after.periods ==> StampsMove(RowOrOpen(db.periods, k), after.periods[k], r.now))
  {
    RequestMovesRows(weekOf, db, r);
    var after := Step(weekOf, db, r);
    forall k | k in after.periods
      ensures StampsOk(after.periods[k], r.now) && StampsMove(RowOrOpen(db.periods, k), after.periods[k], r.now)
    {
      RowMoveKeepsStamps(RowOrOpen(db.periods, k), after.periods[k], clock, r.now);
    }
  }

  /** The database clock does not run backwards. */
  predicate Monotone(rs: seq<Request>) {
    forall i, j :: 0 <= i < j < |rs| ==> rs[i].now <= rs[j].now
  }

  /** In every run, manager_approved_at is set iff the week has reached stage 1, final_approved_at iff stage 2,
      and the former is never the later one. */
  lemma {:induction false} StampsOverRuns(weekOf: WeekOf, rs: seq<Request>)
    requires Monotone(rs)
    ensures AllStampsOk(Run(weekOf, rs), if rs == [] then 0 else rs[|rs| - 1].now)
  {
    if rs != [] {
      var n := |rs| - 1;
      StampsOverRuns(weekOf, rs[..n]);
      if n > 0 {
        assert rs[..n][n - 1].now <= rs[n].now;
        StampStep(weekOf, Run(weekOf, rs[..n]), rs[n], rs[..n][n - 1].now);
      } else {
        assert Run(weekOf, rs[..0]) == EMPTY;
        StampStep(weekOf, EMPTY, rs[n], rs[n].now);
      }
    }
  }

  /** The stage a stamp belongs to: stage 2 for final_approved_at, stage 1 or beyond for manager_approved_at. */
  predicate AtStage(p: Period, final: bool) {
    if final then p.status.PFinalApproved? else Approved(p.status)
  }

  function StampOf(p: Period, final: bool): Option<Instant> {
    if final then p.finalApprovedAt else p.managerApprovedAt
  }

  /** Week `k` is at the stage before each of the requests and after the last. */
  ghost predicate Throughout(weekOf: WeekOf, db: Db, rs: seq<Request>, k: PeriodKey, final: bool) {
    && AtStage(RowOrOpen(RunFrom(weekOf, db, rs).periods, k), final)
    && (rs == [] || Throughout(weekOf, db, rs[..|rs| - 1], k, final))
  }

  function ClockAfter(clock: Instant, rs: seq<Request>): Instant {
    if rs == [] then clock else rs[|rs| - 1].now
  }

  lemma {:induction false} StampsFrom(weekOf: WeekOf, db: Db, rs: seq<Request>, clock: Instant)
    requires AllStampsOk(db, clock) && Monotone(rs) && (rs != [] ==> clock <= rs[0].now)
    ensures AllStampsOk(RunFrom(weekOf, db, rs), ClockAfter(clock, rs))
  {
    if rs != [] {
      var n := |rs| - 1;
      StampsFrom(weekOf, db, rs[..n], clock);
      assert n > 0 ==> rs[n - 1].now <= rs[n].now;
      StampStep(weekOf, RunFrom(weekOf, db, rs[..n]), rs[n], ClockAfter(clock, rs[..n]));
    }
  }

  /** An approval stamp keeps its first value for as long as the week stays at its stage. */
  lemma {:induction false} StampKeepsFirstValue(weekOf: WeekOf, db: Db, rs: seq<Request>, k: PeriodKey, final: bool,
                                                clock: Instant)
    requires AllStampsOk(db, clock) && Monotone(rs) && (rs != [] ==> clock <= rs[0].now)
    requires Throughout(weekOf, db, rs, k, final)
    ensures StampOf(RowOrOpen(RunFrom(weekOf, db, rs).periods, k), final) == StampOf(RowOrOpen(db.periods, k), final)
  {
    if rs != [] {
      var n := |rs| - 1;
      var before := RunFrom(weekOf, db, rs[..n]);
      StampKeepsFirstValue(weekOf, db, rs[..n], k, final, clock);
      StampsFrom(weekOf, db, rs[..n], clock);
      assert n > 0 ==> rs[n - 1].now <= rs[n].now;
      StampStep(weekOf, before, rs[n], ClockAfter(clock, rs[..n]));
    }
  }
}
