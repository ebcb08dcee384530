/** Concrete runs in which a tempting property fails. Each is the code's own behaviour; the exact condition
    under which the property does hold is proved beside the property. */
module CounterExamples {
  import opened Tables
  import opened Rollup
  import opened PeriodRows
  import opened Requests
  import opened Batches
  import opened LockSoundness
  import opened TwoStage
  import I = Interleaving
  import S = Statements
  import A = ApprovalRaces
  import C = StaleCounts

  const W: Week := Week(2026, 21)
  const OWNER: UserId := 1
  const K: PeriodKey := PeriodKey(OWNER, W)

  function OneWeek(): WeekOf {
    (u, t) => W
  }

  const MANUAL := Manual(5, None, 0, HOUR, None, None)
  const ENTRY := ManualEntry(OWNER, MANUAL, 0)
  const SUBMITTED := MarkSubmitted(ENTRY, OWNER, 1)
  const LOCKED_ROW := Period(PSubmitted, Some(1), Some(OWNER), None, None, None)
  const LOCKED_DB := Db(map[0 := SUBMITTED], map[K := LOCKED_ROW], map[], 1)

  const CREATE := CreateReq(OWNER, MANUAL, 0)
  const SUBMIT := SubmitReq(OWNER, 0, true, None, 1)
  const REJECT_AND_MISS := ManagerReq(2, [0, 7], false, Some("no receipts"), 2)

  const CREATED_DB := Db(map[0 := ENTRY], map[], map[], 1)

  lemma Create()
    ensures Run(OneWeek(), [CREATE]) == CREATED_DB
  {
    assert [CREATE][..0] == [];
    assert CreateManual(OneWeek(), EMPTY, OWNER, MANUAL, 0).db == CREATED_DB;
  }

  lemma SubmitIt()
    ensures Submit(OneWeek(), CREATED_DB, OWNER, 0, true, None, 1).db == LOCKED_DB
  {
    var w := OneWeek();
    assert WeekSet(w, CREATED_DB.entries, K) == {0};
    var entries := SubmitEntries(CREATED_DB.entries, {0}, OWNER, 1);
    assert entries == map[0 := SUBMITTED];
    assert Has(w, entries, K, Status.Submitted) by { assert 0 in entries; }
    assert RollupOf(w, entries, K) == PSubmitted;
    assert RecomputeMany(w, entries, StampSubmission(map[], K, OWNER, 1), {K}, 1) == map[K := LOCKED_ROW];
  }

  lemma CreateThenSubmit()
    ensures Run(OneWeek(), [CREATE, SUBMIT]) == LOCKED_DB
  {
    Create();
    SubmitIt();
    assert [CREATE, SUBMIT][..1] == [CREATE];
  }

  const REJECTION := ManagerVerdict(2, false, Some("no receipts"), 2)
  const HALF_DONE := LOCKED_DB.(entries := map[0 := Touched(REJECTION, SUBMITTED)])

  lemma RejectAndMiss()
    ensures ManagerAction(OneWeek(), LOCKED_DB, 2, [0, 7], false, Some("no receipts"), 2) == Fail(HALF_DONE, DbFault)
  {
    assert [0, 7][..1] == [0] && [0][..0] == [];
    assert RunBatch(LOCKED_DB.entries, [], REJECTION) == Batch(LOCKED_DB.entries, None);
    assert RunBatch(LOCKED_DB.entries, [0], REJECTION) == Batch(HALF_DONE.entries, None);
    assert RunBatch(LOCKED_DB.entries, [0, 7], REJECTION) == Batch(HALF_DONE.entries, Some(DbFault));
  }

  lemma RunIsHalfDone()
    ensures Run(OneWeek(), [CREATE, SUBMIT, REJECT_AND_MISS]) == HALF_DONE
  {
    CreateThenSubmit();
    RejectAndMiss();
    assert [CREATE, SUBMIT, REJECT_AND_MISS][..2] == [CREATE, SUBMIT];
  }

  lemma HalfDoneIsWrong()
    ensures IsLocked(HALF_DONE.periods, K) && !LockHolds(OneWeek(), HALF_DONE, K)
  {
    assert 0 in HALF_DONE.entries && KeyOf(OneWeek(), HALF_DONE.entries[0]) == K;
  }

  /** A stage-1 rejection batch that names a missing id stops after its first entry: the week stays locked
      as submitted although its only entry is rejected. */
  lemma StoppedBatchBreaksLock()
    ensures var db := Run(OneWeek(), [CREATE, SUBMIT, REJECT_AND_MISS]);
      IsLocked(db.periods, K) && !LockHolds(OneWeek(), db, K)
  {
    RunIsHalfDone();
    HalfDoneIsWrong();
  }

  // --- a phantom stage-1 row ---------------------------------------------------------------

  function Approve(actor: UserId, now: Instant): Request {
    ManagerReq(actor, [0], true, None, now)
  }

  const FINALIZE := FinalReq(2, [0], true, None, 4)
  const PHANTOM_RUN := [CREATE, SUBMIT, Approve(2, 2), Approve(3, 3)]

  /** One approval of entry 0, whichever stage. */
  lemma ApproveZero(db: Db, r: Request)
    requires IsBatch(r) && r.ids == [0] && r.approve && 0 in db.entries && !Blocked(VerdictOf(r), db.entries[0])
    ensures var e, f := db.entries[0], Step(OneWeek(), db, r).entries;
      && 0 in f
      && f[0].status == (if e.status == VerdictOf(r).fromStatus then VerdictOf(r).toStatus else e.status)
      && (r.ManagerReq? ==> Stage1Actor(f[0].log) == Some(r.actor))
  {
    assert FirstStop(db.entries, [0], VerdictOf(r)) == 1 by {
      assert Passes(db.entries, [0][0], VerdictOf(r));
    }
    assert [0][..1] == [0];
    assert Named(db, r) == [0];
    BatchMoves(OneWeek(), db, r, 0);
  }

  lemma PhantomRunIs()
    ensures var w, db := OneWeek(), Run(OneWeek(), PHANTOM_RUN);
      && 0 in db.entries && db.entries[0].status.ManagerApproved? && Stage1Actor(db.entries[0].log) == Some(3)
      && 0 in Movers(w, PHANTOM_RUN) && Movers(w, PHANTOM_RUN)[0] == 2
  {
    var w := OneWeek();
    CreateThenSubmit();
    var two, three := [CREATE, SUBMIT], [CREATE, SUBMIT, Approve(2, 2)];
    assert three[..2] == two && PHANTOM_RUN[..3] == three;
    ApproveZero(LOCKED_DB, Approve(2, 2));
    ApproveZero(Run(w, three), Approve(3, 3));
    assert Promotes(w, LOCKED_DB, Approve(2, 2), 0);
    assert Movers(w, three) == NextMovers(w, LOCKED_DB, Approve(2, 2), Movers(w, two));
    assert 0 in Movers(w, three) && Movers(w, three)[0] == 2;
    assert Movers(w, PHANTOM_RUN) == NextMovers(w, Run(w, three), Approve(3, 3), Movers(w, three));
  }

  /** A second manager who approves an already approved entry only adds a history row, but that row lets the
      first manager finalize what they themselves took through stage 1. */
  lemma PhantomRowDefeatsSeparation()
    ensures var w, db := OneWeek(), Run(OneWeek(), PHANTOM_RUN);
      && Finalizes(w, db, FINALIZE, 0)
      && 0 in Movers(w, PHANTOM_RUN) && Movers(w, PHANTOM_RUN)[0] == FINALIZE.actor
  {
    PhantomRunIs();
    ApproveZero(Run(OneWeek(), PHANTOM_RUN), FINALIZE);
  }

  // --- races -------------------------------------------------------------------------------

  const TASK := Body(5, None, None, None)

  function Timer(key: string): I.Work {
    I.TimerWork(key, TASK)
  }

  const BOTH_STOPPING := I.World(EMPTY, map[
    0 := I.Call(OWNER, Timer("a"), I.Stopping({}, 1)),
    1 := I.Call(OWNER, Timer("b"), I.Stopping({}, 2))])

  const TWO_STARTS := [
    I.Arrive(0, OWNER, Timer("a")), I.LookUp(0), I.Check(0, 1), I.Update(0, 1),
    I.Arrive(1, OWNER, Timer("b")), I.LookUp(1), I.Check(1, 2), I.Update(1, 2)]

  lemma FirstCallStops()
    ensures I.After(OneWeek(), I.START, TWO_STARTS[..4])
        == I.World(EMPTY, map[0 := I.Call(OWNER, Timer("a"), I.Stopping({}, 1))])
  {
    var w, evs := OneWeek(), TWO_STARTS;
    assert evs[..1][..0] == [] && evs[..2][..1] == evs[..1] && evs[..3][..2] == evs[..2] && evs[..4][..3] == evs[..3];
    assert I.RunningIds(EMPTY.entries, OWNER) == {};
    assert I.After(w, I.START, evs[..1]) == I.World(EMPTY, map[0 := I.Call(OWNER, Timer("a"), I.Arrived)]);
    assert I.After(w, I.START, evs[..2]) == I.World(EMPTY, map[0 := I.Call(OWNER, Timer("a"), I.Missed)]);
    assert I.After(w, I.START, evs[..3]) == I.World(EMPTY, map[0 := I.Call(OWNER, Timer("a"), I.Checked)]);
  }

  lemma SecondCallStops()
    ensures I.After(OneWeek(), I.START, TWO_STARTS) == BOTH_STOPPING
  {
    var w, evs := OneWeek(), TWO_STARTS;
    FirstCallStops();
    var first := I.Call(OWNER, Timer("a"), I.Stopping({}, 1));
    assert evs[..5][..4] == evs[..4] && evs[..6][..5] == evs[..5] && evs[..7][..6] == evs[..6] && evs[..8] == evs
      && evs[..8][..7] == evs[..7];
    assert I.RunningIds(EMPTY.entries, OWNER) == {};
    assert I.After(w, I.START, evs[..5]) == I.World(EMPTY, map[0 := first, 1 := I.Call(OWNER, Timer("b"), I.Arrived)]);
    assert I.After(w, I.START, evs[..6]) == I.World(EMPTY, map[0 := first, 1 := I.Call(OWNER, Timer("b"), I.Missed)]);
    assert I.After(w, I.START, evs[..7]) == I.World(EMPTY, map[0 := first, 1 := I.Call(OWNER, Timer("b"), I.Checked)]);
  }

  const FIRST := NewTimer(OWNER, "a", TASK, 1)
  const FIRST_DB := EMPTY.(entries := map[0 := FIRST], nextId := 1)

  lemma FirstCommits()
    ensures I.CommitTimer(OneWeek(), EMPTY, OWNER, "a", TASK, {}, 1) == I.Attempt(FIRST_DB, I.Committed(Row(0, FIRST)))
  {
    assert I.StopSeen(EMPTY.entries, {}, 1) == map[];
    assert map[][0 := FIRST] == FIRST_DB.entries;
  }

  lemma SecondAborts()
    ensures !OneRunning(I.StopSeen(FIRST_DB.entries, {}, 2)[1 := NewTimer(OWNER, "b", TASK, 2)])
    ensures I.CommitTimer(OneWeek(), FIRST_DB, OWNER, "b", TASK, {}, 2)
      == I.Attempt(FIRST_DB, I.Aborted(IdempotencyConflict))
  {
    var stopped := I.StopSeen(FIRST_DB.entries, {}, 2);
    assert stopped == FIRST_DB.entries && Constraints(stopped);
    var both := stopped[1 := NewTimer(OWNER, "b", TASK, 2)];
    assert both[0].status.Running? && both[1].status.Running? && both[0].user == both[1].user;
  }

  /** Two concurrent starts really can meet: after the first commits, the second's insert would give the user a
      second running entry, and only the unique index turns it away. */
  lemma IndexIsNeeded()
    ensures var w := I.After(OneWeek(), I.START, TWO_STARTS + [I.Commit(0)]);
      && w.db.entries.Keys == {0} && 1 in w.calls && w.calls[1].pc == I.Stopping({}, 2)
      && !OneRunning(I.StopSeen(w.db.entries, {}, 2)[1 := NewTimer(OWNER, "b", TASK, 2)])
      && I.Next(OneWeek(), w, I.Commit(1)).calls[1].pc == I.Aborted(IdempotencyConflict)
  {
    SecondCallStops();
    I.Then(OneWeek(), I.START, TWO_STARTS, I.Commit(0));
    FirstCommits();
    SecondAborts();
  }

  const NEW_NOTE := Patch(Some(Some("later")), None, None, None, None, None)

  /** A manual request on entry 0 passes its checks, the week is submitted, and only then the request writes. */
  function SubmitBetween(work: I.Work): seq<I.Event> {
    [I.Whole(CREATE), I.Arrive(0, OWNER, work), I.Check(0, 1), I.Whole(SUBMIT)]
  }

  predicate OnEntryZero(work: I.Work) {
    work == I.RemoveWork(0) || work == I.EditWork(0, NEW_NOTE, true)
  }

  lemma CheckedOn(work: I.Work)
    requires OnEntryZero(work)
    ensures I.After(OneWeek(), I.START, SubmitBetween(work)[..3])
        == I.World(CREATED_DB, map[0 := I.Call(OWNER, work, I.Checked)])
  {
    var w, evs := OneWeek(), SubmitBetween(work);
    Create();
    assert evs[..1][..0] == [] && evs[..2][..1] == evs[..1] && evs[..3][..2] == evs[..2];
    assert [CREATE][..0] == [];
    assert I.After(w, I.START, evs[..1]) == I.World(CREATED_DB, map[]);
    assert I.After(w, I.START, evs[..2]) == I.World(CREATED_DB, map[0 := I.Call(OWNER, work, I.Arrived)]);
  }

  lemma CheckedThenSubmitted(work: I.Work)
    requires OnEntryZero(work)
    ensures I.After(OneWeek(), I.START, SubmitBetween(work))
        == I.World(LOCKED_DB, map[0 := I.Call(OWNER, work, I.Checked)])
  {
    CheckedOn(work);
    SubmitIt();
    assert SubmitBetween(work)[..3] == SubmitBetween(work)[..|SubmitBetween(work)| - 1];
  }

  /** The DELETE has no trigger behind it: checked before a concurrent submit and carried out after it, it takes
      a submitted entry out of a locked week. */
  lemma DeleteRacesSubmit()
    ensures var w := I.After(OneWeek(), I.START, SubmitBetween(I.RemoveWork(0)) + [I.Write(0, 2)]);
      IsLocked(w.db.periods, K) && w.db.entries == map[]
  {
    var evs := SubmitBetween(I.RemoveWork(0));
    CheckedThenSubmitted(I.RemoveWork(0));
    assert (evs + [I.Write(0, 2)])[..|evs|] == evs;
    assert LOCKED_DB.entries - {0} == map[];
  }

  /** Nor does the trigger look at an UPDATE that keeps start_at: an edit checked before the submit still changes
      the submitted entry. */
  lemma EditRacesSubmit()
    ensures var w := I.After(OneWeek(), I.START, SubmitBetween(I.EditWork(0, NEW_NOTE, true)) + [I.Write(0, 2)]);
      && IsLocked(w.db.periods, K) && 0 in w.db.entries && w.db.entries[0].status.Submitted?
      && LOCKED_DB.entries[0].notes == None && w.db.entries[0].notes == Some("later")
  {
    var work := I.EditWork(0, NEW_NOTE, true);
    var evs := SubmitBetween(work);
    CheckedThenSubmitted(work);
    assert (evs + [I.Write(0, 2)])[..|evs|] == evs;
    assert LOCKED_DB.entries[0 := Patched(SUBMITTED, NEW_NOTE, 2)] == map[0 := Patched(SUBMITTED, NEW_NOTE, 2)];
    assert Constraints(map[0 := Patched(SUBMITTED, NEW_NOTE, 2)]);
  }

  // --- statement by statement ----------------------------------------------------------------

  const CREATED: seq<S.Event> := [S.Other(I.Whole(CREATE))]
  const FILED: seq<S.Event> := CREATED + [S.Transact(0, SUBMIT)] + [S.Commit(0)]

  function Quiet(db: Db): S.World {
    S.World(I.World(db, map[]), map[], map[])
  }

  lemma CreatedIs()
    ensures S.After(OneWeek(), CREATED) == Quiet(CREATED_DB)
  {
    Create();
    assert CREATED[..0] == [] && [CREATE][..0] == [];
    assert S.After(OneWeek(), []) == Quiet(EMPTY);
  }

  lemma FiledIs()
    ensures S.After(OneWeek(), FILED) == Quiet(LOCKED_DB)
  {
    CreatedIs();
    SubmitIt();
    S.Then(OneWeek(), CREATED, S.Transact(0, SUBMIT));
    S.Then(OneWeek(), CREATED + [S.Transact(0, SUBMIT)], S.Commit(0));
    S.TxAloneIsAtomic(OneWeek(), Quiet(CREATED_DB), 0, SUBMIT);
  }

  /** An admin may call both stages. Their stage-2 read of a submitted entry, then their own stage-1 approval of it,
      then the stage-2 update: they finalize what they took through stage 1, with every row true. */
  lemma ReadRacesApproval()
    ensures A.FinalizesOwn(OneWeek(), FILED + A.ReadFirst(0, 1, 2, 0, 2), 0, 0)
  {
    FiledIs();
    assert Stage1Actor(SUBMITTED.log[..0]) == None;
    A.ReadFirstFinalizesOwn(OneWeek(), FILED, 0, 1, 2, 0, 2);
  }

  const APPROVAL := ManagerVerdict(2, true, None, 2)
  const APPROVED_DB := LOCKED_DB.(entries := map[0 := Touched(APPROVAL, SUBMITTED)])
  const BEGUN := S.Review(APPROVAL, [0], 0, 0, {}, S.Ready)
  const LOOKED_UP := S.Review(APPROVAL, [0], 1, 0, {K}, S.Peeked(K, PManagerApproved, Some(PSubmitted)))

  const APPROVED: seq<S.Event> := FILED + [S.Begin(0, Approve(2, 2))] + [S.Update(0)] + [S.Log(0)]
  const COUNTED: seq<S.Event> := APPROVED + [S.Resolve(0)] + [S.Count(0)] + [S.Peek(0)]

  function Reviewing(db: Db, r: S.Review): S.World {
    S.World(I.World(db, map[]), map[0 := r], map[])
  }

  lemma ApprovedIs()
    ensures S.After(OneWeek(), APPROVED) == Reviewing(APPROVED_DB, BEGUN.(at := 1))
  {
    FiledIs();
    var begun := FILED + [S.Begin(0, Approve(2, 2))];
    S.Then(OneWeek(), FILED, S.Begin(0, Approve(2, 2)));
    assert S.After(OneWeek(), begun) == Reviewing(LOCKED_DB, BEGUN);
    S.Then(OneWeek(), begun, S.Update(0));
    S.Then(OneWeek(), begun + [S.Update(0)], S.Log(0));
    S.TouchIs(OneWeek(), Reviewing(LOCKED_DB, BEGUN), 0);
    assert LOCKED_DB.entries[0 := Touched(APPROVAL, SUBMITTED)] == APPROVED_DB.entries;
  }

  lemma RollupIsApproved()
    ensures RollupOf(OneWeek(), APPROVED_DB.entries, K) == PManagerApproved
  {
    assert 0 in APPROVED_DB.entries && KeyOf(OneWeek(), APPROVED_DB.entries[0]) == K;
    assert Has(OneWeek(), APPROVED_DB.entries, K, ManagerApproved);
  }

  lemma LooksUp()
    ensures S.LookedUp(OneWeek(), Reviewing(APPROVED_DB, BEGUN.(at := 1)), 0) == Reviewing(APPROVED_DB, LOOKED_UP)
  {
    var w := Reviewing(APPROVED_DB, BEGUN.(at := 1));
    assert S.NewWeek(OneWeek(), w, 0) && S.NextWeek(OneWeek(), w, 0) == K;
    RollupIsApproved();
    S.LookedUpIs(OneWeek(), w, 0);
    assert {} + {K} == {K};
    assert S.TakenUp(BEGUN.(at := 1), K, LOOKED_UP.pc) == LOOKED_UP;
  }

  lemma CountedIs()
    ensures S.After(OneWeek(), COUNTED) == Reviewing(APPROVED_DB, LOOKED_UP)
  {
    ApprovedIs();
    S.Then(OneWeek(), APPROVED, S.Resolve(0));
    S.Then(OneWeek(), APPROVED + [S.Resolve(0)], S.Count(0));
    S.Then(OneWeek(), APPROVED + [S.Resolve(0)] + [S.Count(0)], S.Peek(0));
    LooksUp();
  }

  const WHY := "approved in the wrong week"

  /** A stage-1 batch has counted the week when the whole week is unlocked; its store locks the week again, with its one
      entry back in draft. */
  lemma UnlockRacesRecompute()
    ensures var evs := COUNTED + [S.Transact(0, UnlockWeekReq(3, K, WHY, 3))] + [S.Commit(0)] + [S.Store(0)];
      var db := S.After(OneWeek(), evs).base.db;
      IsLocked(db.periods, K) && !LockHolds(OneWeek(), db, K) && !TimerDrafts(OneWeek(), db, K)
  {
    CountedIs();
    var unlock := S.Transact(0, UnlockWeekReq(3, K, WHY, 3));
    S.Then(OneWeek(), COUNTED, unlock);
    S.Then(OneWeek(), COUNTED + [unlock], S.Commit(0));
    S.Then(OneWeek(), COUNTED + [unlock] + [S.Commit(0)], S.Store(0));
    C.LateStoreRelocks(OneWeek(), Reviewing(APPROVED_DB, LOOKED_UP), 0, 0, 3, WHY, 3, 0);
  }

  const EVENING := Manual(5, None, 2 * HOUR, 3 * HOUR, None, None)
  const WITH_EVENING := CREATED_DB.(entries := map[0 := ENTRY, 1 := ManualEntry(OWNER, EVENING, 1)], nextId := 2)
  const SUBMITTING: seq<S.Event> := CREATED + [S.Transact(0, SUBMIT)]
  const SUBMIT_TX := S.Tx(SUBMIT, K, {0}, PSubmitted, Some(Open))

  lemma SubmittingIs()
    ensures S.After(OneWeek(), SUBMITTING) == Quiet(CREATED_DB).(txs := map[0 := SUBMIT_TX])
  {
    CreatedIs();
    S.Then(OneWeek(), CREATED, S.Transact(0, SUBMIT));
    S.TransactIs(OneWeek(), Quiet(CREATED_DB), 0, SUBMIT);
    var w := OneWeek();
    assert WeekSet(w, CREATED_DB.entries, K) == {0};
    var ids := S.IdsOfTx(w, CREATED_DB, SUBMIT);
    assert ids == {0};
    var entries := S.TxEntries(w, CREATED_DB.entries, SUBMIT, K, ids);
    assert entries == map[0 := SUBMITTED];
    assert Has(w, entries, K, Status.Submitted) by { assert 0 in entries; }
    assert RollupOf(w, entries, K) == PSubmitted;
  }

  lemma AddEvening()
    ensures CreateManual(OneWeek(), CREATED_DB, OWNER, EVENING, 1).db == WITH_EVENING
  {
    var entries := CREATED_DB.entries[1 := ManualEntry(OWNER, EVENING, 1)];
    assert entries == WITH_EVENING.entries;
    assert Constraints(entries);
  }

  /** A submit has counted the week when another entry is added by hand, which the week's row does not yet forbid; the
      commit locks the week over that draft. */
  lemma CreateRacesSubmit()
    ensures var evs := SUBMITTING + [S.Other(I.Whole(CreateReq(OWNER, EVENING, 1)))] + [S.Commit(0)];
      var db := S.After(OneWeek(), evs).base.db;
      IsLocked(db.periods, K) && !LockHolds(OneWeek(), db, K) && !TimerDrafts(OneWeek(), db, K)
  {
    var add := S.Other(I.Whole(CreateReq(OWNER, EVENING, 1)));
    EveningAdded();
    S.Then(OneWeek(), SUBMITTING + [add], S.Commit(0));
    CommitOver();
  }

  lemma EveningAdded()
    ensures S.After(OneWeek(), SUBMITTING + [S.Other(I.Whole(CreateReq(OWNER, EVENING, 1)))])
      == Quiet(WITH_EVENING).(txs := map[0 := SUBMIT_TX])
  {
    SubmittingIs();
    AddEvening();
    S.Then(OneWeek(), SUBMITTING, S.Other(I.Whole(CreateReq(OWNER, EVENING, 1))));
  }

  lemma CommitOver()
    ensures var db := S.Next(OneWeek(), Quiet(WITH_EVENING).(txs := map[0 := SUBMIT_TX]), S.Commit(0)).base.db;
      IsLocked(db.periods, K) && !LockHolds(OneWeek(), db, K) && !TimerDrafts(OneWeek(), db, K)
  {
    S.CommitIs(OneWeek(), Quiet(WITH_EVENING).(txs := map[0 := SUBMIT_TX]), 0);
    var after := S.Committed(OneWeek(), WITH_EVENING, SUBMIT_TX);
    assert 1 in after.entries && after.entries[1] == ManualEntry(OWNER, EVENING, 1);
    assert KeyOf(OneWeek(), after.entries[1]) == K;
    assert K in after.periods && after.periods[K].status == PSubmitted;
  }
}
