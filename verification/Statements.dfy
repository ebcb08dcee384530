/** The requests that recompute stored periods, statement by statement. managerAction, finalAction and the per-entry
    unlock run outside any transaction: each entry is read (stage 2 only), updated and logged in separate statements,
    and then each affected week is resolved, counted, looked up and stored in four more. Submit and the week unlock are
    transactions, whose count is made before they commit. Between any two of these anything else may happen, even what a
    row lock would hold up until the commit: there are more interleavings here than in the database, none fewer. */
module Statements {
  import opened Tables
  import opened Rollup
  import opened PeriodRows
  import opened Requests
  import opened Batches
  import opened LockSoundness
  import opened TwoStage
  import I = Interleaving
  import R = Replays

  datatype Pc =
    | Ready                 // between two entries, or between two weeks
    | Selected              // stage 2: the latest stage-1 row was not the actor's
    | Updated
    | Resolved(week: PeriodKey)
    | Counted(week: PeriodKey, st: PeriodStatus)
    | Peeked(week: PeriodKey, st: PeriodStatus, prior: Option<PeriodStatus>)
    | Refused(error: Error)
    | Died

  /** A running call: `at` counts the entries it is done with, `done` those whose weeks it is done with, `seen` are the
      weeks it has taken up. */
  datatype Review = Review(a: Action, ids: seq<EntryId>, at: nat, done: nat, seen: set<PeriodKey>, pc: Pc)

  /** A transaction that has written `ids` and counted, and has yet to commit. */
  datatype Tx = Tx(request: Request, week: PeriodKey, ids: set<EntryId>, st: PeriodStatus, prior: Option<PeriodStatus>)

  datatype World = World(base: I.World, reviews: map<I.CallId, Review>, txs: map<I.CallId, Tx>)

  datatype Event =
    | Begin(c: I.CallId, request: Request)
    | Select(c: I.CallId)
    | Update(c: I.CallId)
    | Log(c: I.CallId)
    | Resolve(c: I.CallId)
    | Count(c: I.CallId)
    | Peek(c: I.CallId)
    | Store(c: I.CallId)
    | Die(c: I.CallId)
    | Transact(t: I.CallId, request: Request)
    | Commit(t: I.CallId)
    | Rollback(t: I.CallId)
    | Other(event: I.Event)  // anything that recomputes nothing

  function EntriesOf(w: World): Entries {
    w.base.db.entries
  }

  function Stored(w: World): Periods {
    w.base.db.periods
  }

  predicate OnEntry(r: Review, id: EntryId) {
    r.at < |r.ids| && r.ids[r.at] == id
  }

  predicate Approves1(r: Review) {
    r.a.toStatus.ManagerApproved?
  }

  predicate Stage2(r: Review) {
    r.a.fromStatus.ManagerApproved?
  }

  /** The requests taken apart here. */
  predicate Recomputes(r: Request) {
    IsBatch(r) || r.AdminUnlockReq? || r.SubmitReq? || r.UnlockWeekReq?
  }

  // --- the statements ----------------------------------------------------------------------

  /** A per-entry unlock is an action too; its UPDATE takes an entry from any status. */
  predicate Unlocks(a: Action) {
    a.toStatus.Draft?
  }

  predicate Job(a: Action) {
    Verdict(a) || (a.fromStatus.FinalApproved? && a.toStatus.Draft?)
  }

  function JobOf(r: Request): Review
    requires IsBatch(r) || r.AdminUnlockReq?
  {
    if IsBatch(r) then Review(VerdictOf(r), r.ids, 0, 0, {}, Ready)
    else Review(Action(FinalApproved, Draft, r.actor, Some(r.reason), r.now), [r.id], 0, 0, {}, Ready)
  }

  /** The UPDATE matches the entry. */
  predicate Hits(entries: Entries, a: Action, id: EntryId) {
    id in entries && (Unlocks(a) || entries[id].status == a.fromStatus)
  }

  /** The CHECK on end_at refuses the per-entry unlock of a running timer. */
  predicate Faults(entries: Entries, a: Action, id: EntryId) {
    Unlocks(a) && id in entries && entries[id].endAt.None?
  }

  function UpdateOne(entries: Entries, a: Action, id: EntryId): Entries {
    if Hits(entries, a, id) && !Faults(entries, a, id)
    then entries[id := entries[id].(status := a.toStatus, updatedAt := a.now)]
    else entries
  }

  function LogOne(entries: Entries, a: Action, id: EntryId): Entries
    requires id in entries
  {
    entries[id := entries[id].(log := entries[id].log + [Transition(a.fromStatus, a.toStatus, a.actor, a.reason)])]
  }

  /** The INSERT or UPDATE of recomputePeriod: `prior` is the status it looked up, if there was a row. */
  function StoreRow(periods: Periods, k: PeriodKey, st: PeriodStatus, prior: Option<PeriodStatus>,
                    now: Instant): Periods {
    match prior
    case None =>
      if st.Open? then periods
      else periods[k := if k in periods then periods[k].(status := st) else FirstRow(st, now)]
    case Some(was) =>
      if k !in periods then periods
      else periods[k := UpdatedRow(periods[k], st, now)
                          .(reopenedAt := if LockedPeriod(was) && st.Open? then Some(now) else periods[k].reopenedAt)]
  }

  function PriorOf(periods: Periods, k: PeriodKey): Option<PeriodStatus> {
    if k in periods then Some(periods[k].status) else None
  }

  // --- the transactions --------------------------------------------------------------------

  predicate Transacts(weekOf: WeekOf, db: Db, r: Request) {
    || (&& r.SubmitReq? && r.id in db.entries && db.entries[r.id].user == r.user
        && Insertable(SubmitTarget(weekOf, db.entries[r.id], r.wholeWeek, r.token).week))
    || (r.UnlockWeekReq? && |r.reason| >= 20)
  }

  function WeekOfTx(weekOf: WeekOf, db: Db, r: Request): PeriodKey
    requires Transacts(weekOf, db, r)
  {
    if r.SubmitReq? then SubmitTarget(weekOf, db.entries[r.id], r.wholeWeek, r.token) else r.k
  }

  /** The rows the transaction writes. */
  function IdsOfTx(weekOf: WeekOf, db: Db, r: Request): set<EntryId>
    requires Transacts(weekOf, db, r)
  {
    var k := WeekOfTx(weekOf, db, r);
    if r.SubmitReq?
    then set id | id in SubmitIds(weekOf, db.entries, r.id, k, r.wholeWeek)
                  && id in db.entries && db.entries[id].status.Draft?
    else set id | id in db.entries && KeyOf(weekOf, db.entries[id]) == k && LockedStatus(db.entries[id].status)
  }

  /** What it writes to them; it holds their row locks, so they are what they were until it commits. */
  function TxEntries(weekOf: WeekOf, entries: Entries, r: Request, k: PeriodKey, ids: set<EntryId>): Entries
    requires r.SubmitReq? || r.UnlockWeekReq?
  {
    map id | id in entries ::
      var e := entries[id];
      if id !in ids || KeyOf(weekOf, e) != k then e
      else if r.SubmitReq? then (if e.status.Draft? then MarkSubmitted(e, r.user, r.now) else e)
      else if LockedStatus(e.status) then Unlocked(e, e.status, r.actor, r.reason, r.now) else e
  }

  function TxPeriods(periods: Periods, r: Request, k: PeriodKey): Periods {
    if r.SubmitReq? then StampSubmission(periods, k, r.user, r.now) else periods
  }

  function Transacted(weekOf: WeekOf, db: Db, r: Request): Tx
    requires Transacts(weekOf, db, r)
  {
    var k, ids := WeekOfTx(weekOf, db, r), IdsOfTx(weekOf, db, r);
    Tx(r, k, ids, RollupOf(weekOf, TxEntries(weekOf, db.entries, r, k, ids), k),
       PriorOf(TxPeriods(db.periods, r, k), k))
  }

  function Committed(weekOf: WeekOf, db: Db, tx: Tx): Db
    requires tx.request.SubmitReq? || tx.request.UnlockWeekReq?
  {
    db.(entries := TxEntries(weekOf, db.entries, tx.request, tx.week, tx.ids),
        periods := StoreRow(TxPeriods(db.periods, tx.request, tx.week), tx.week, tx.st, tx.prior, tx.request.now))
  }

  // --- events ------------------------------------------------------------------------------

  /** The call is through with its entries and has a week to look for. */
  predicate Recomputing(r: Review) {
    r.at == |r.ids| && r.done < |r.ids|
  }

  /** It is the turn of a call's UPDATE. */
  predicate Updates(w: World, ev: Event) {
    && ev.Update? && ev.c in w.reviews && w.reviews[ev.c].at < |w.reviews[ev.c].ids|
    && (if Stage2(w.reviews[ev.c]) then w.reviews[ev.c].pc.Selected? else w.reviews[ev.c].pc.Ready?)
  }

  /** It is the turn of its history INSERT. */
  predicate Logs(w: World, ev: Event) {
    ev.Log? && ev.c in w.reviews && w.reviews[ev.c].pc.Updated? && w.reviews[ev.c].at < |w.reviews[ev.c].ids|
  }

  predicate Enabled(weekOf: WeekOf, w: World, ev: Event) {
    match ev
    case Begin(c, r) =>
      && c !in w.reviews
      && (|| (IsBatch(r) && r.ids != [] && !ReasonMissing(r.approve, r.why))
          || (r.AdminUnlockReq? && |r.reason| >= 20))
    case Select(c) =>
      c in w.reviews && w.reviews[c].pc.Ready? && w.reviews[c].at < |w.reviews[c].ids| && Stage2(w.reviews[c])
    case Update(_) => Updates(w, ev)
    case Log(_) => Logs(w, ev)
    case Resolve(c) => c in w.reviews && w.reviews[c].pc.Ready? && Recomputing(w.reviews[c])
    case Count(c) => c in w.reviews && w.reviews[c].pc.Resolved?
    case Peek(c) => c in w.reviews && w.reviews[c].pc.Counted?
    case Store(c) => c in w.reviews && w.reviews[c].pc.Peeked?
    case Die(c) => c in w.reviews
    case Transact(t, r) => t !in w.txs && Transacts(weekOf, w.base.db, r)
    case Commit(t) => t in w.txs && (w.txs[t].request.SubmitReq? || w.txs[t].request.UnlockWeekReq?)
    case Rollback(t) => t in w.txs
    case Other(e) => !(e.Whole? && Recomputes(e.request))
  }

  function WithDb(w: World, db: Db): World {
    w.(base := w.base.(db := db))
  }

  function WithCall(w: World, c: I.CallId, r: Review): World {
    w.(reviews := w.reviews[c := r])
  }

  function WithEntries(w: World, entries: Entries, c: I.CallId, r: Review): World {
    WithCall(WithDb(w, w.base.db.(entries := entries)), c, r)
  }

  function WithPeriods(w: World, periods: Periods, c: I.CallId, r: Review): World {
    WithCall(WithDb(w, w.base.db.(periods := periods)), c, r)
  }

  /** Where the call goes once it has looked up the entry whose week is next. */
  function Resolving(weekOf: WeekOf, entries: Entries, r: Review): Review
    requires Recomputing(r)
  {
    var id := r.ids[r.done];
    if id !in entries || KeyOf(weekOf, entries[id]) in r.seen then r.(done := r.done + 1)
    else r.(seen := r.seen + {KeyOf(weekOf, entries[id])}, pc := Resolved(KeyOf(weekOf, entries[id])))
  }

  ghost function Otherwise(weekOf: WeekOf, w: World, ev: Event): World
    requires ev.Other?
  {
    w.(base := I.Next(weekOf, w.base, ev.event))
  }

  /** One event; an event that is not enabled does nothing. */
  ghost function Next(weekOf: WeekOf, w: World, ev: Event): World {
    if !Enabled(weekOf, w, ev) then w
    else
      match ev
      case Begin(c, r) => WithCall(w, c, JobOf(r))
      case Select(c) =>
        var r := w.reviews[c];
        var id := r.ids[r.at];
        var blocked := id in EntriesOf(w) && Blocked(r.a, EntriesOf(w)[id]);
        WithCall(w, c, r.(pc := if blocked then Refused(Forbidden) else Selected))
      case Update(c) =>
        var r := w.reviews[c];
        WithEntries(w, UpdateOne(EntriesOf(w), r.a, r.ids[r.at]), c,
                    r.(pc := if Faults(EntriesOf(w), r.a, r.ids[r.at]) then Refused(DbFault) else Updated))
      case Log(c) =>
        var r := w.reviews[c];
        var id := r.ids[r.at];
        if id !in EntriesOf(w) then WithCall(w, c, r.(pc := Refused(DbFault)))
        else WithEntries(w, LogOne(EntriesOf(w), r.a, id), c, r.(at := r.at + 1, pc := Ready))
      case Resolve(c) => WithCall(w, c, Resolving(weekOf, EntriesOf(w), w.reviews[c]))
      case Count(c) =>
        var r := w.reviews[c];
        WithCall(w, c, r.(pc := Counted(r.pc.week, RollupOf(weekOf, EntriesOf(w), r.pc.week))))
      case Peek(c) =>
        var r := w.reviews[c];
        WithCall(w, c, r.(pc := Peeked(r.pc.week, r.pc.st, PriorOf(Stored(w), r.pc.week))))
      case Store(c) =>
        var r := w.reviews[c];
        WithPeriods(w, StoreRow(Stored(w), r.pc.week, r.pc.st, r.pc.prior, r.a.now), c,
                    r.(done := r.done + 1, pc := Ready))
      case Die(c) => WithCall(w, c, w.reviews[c].(pc := Died))
      case Transact(t, r) => w.(txs := w.txs[t := Transacted(weekOf, w.base.db, r)])
      case Commit(t) => WithDb(w, Committed(weekOf, w.base.db, w.txs[t])).(txs := w.txs - {t})
      case Rollback(t) => w.(txs := w.txs - {t})
      case Other(_) => Otherwise(weekOf, w, ev)
  }

  /** The running call whose statement the event is. */
  function CallOf(ev: Event): Option<I.CallId> {
    match ev
    case Select(c) => Some(c)
    case Update(c) => Some(c)
    case Log(c) => Some(c)
    case Resolve(c) => Some(c)
    case Count(c) => Some(c)
    case Peek(c) => Some(c)
    case Store(c) => Some(c)
    case Die(c) => Some(c)
    case _ => None
  }

  const START := World(I.START, map[], map[])

  /** The world after a sequence of events. */
  ghost function After(weekOf: WeekOf, evs: seq<Event>): World {
    if evs == [] then START else Next(weekOf, After(weekOf, evs[..|evs| - 1]), evs[|evs| - 1])
  }

  // --- a call alone ------------------------------------------------------------------------

  /** All statements of the call's next entry, with nothing in between. */
  ghost function OneEntry(weekOf: WeekOf, w: World, c: I.CallId): World {
    Next(weekOf, Next(weekOf, Next(weekOf, w, Select(c)), Update(c)), Log(c))
  }

  ghost function Alone(weekOf: WeekOf, w: World, c: I.CallId, n: nat): World {
    if n == 0 then w else OneEntry(weekOf, Alone(weekOf, w, c, n - 1), c)
  }

  /** The entry's update and its row, from where the batch has let it through. */
  lemma TouchIs(weekOf: WeekOf, w: World, c: I.CallId)
    requires c in w.reviews && w.reviews[c].at < |w.reviews[c].ids| && Verdict(w.reviews[c].a)
    requires if Stage2(w.reviews[c]) then w.reviews[c].pc.Selected? else w.reviews[c].pc.Ready?
    ensures var r, after := w.reviews[c], Next(weekOf, Next(weekOf, w, Update(c)), Log(c));
      var id := r.ids[r.at];
      if id in EntriesOf(w)
      then after
        == WithEntries(w, EntriesOf(w)[id := Touched(r.a, EntriesOf(w)[id])], c, r.(at := r.at + 1, pc := Ready))
      else after.base == w.base && c in after.reviews && after.reviews[c].pc == Refused(DbFault)
  {
    var r := w.reviews[c];
    var one := Next(weekOf, w, Update(c));
    assert one == WithEntries(w, UpdateOne(EntriesOf(w), r.a, r.ids[r.at]), c, r.(pc := Updated));
  }

  lemma SelectIs(weekOf: WeekOf, w: World, c: I.CallId)
    requires c in w.reviews && w.reviews[c].pc.Ready? && w.reviews[c].at < |w.reviews[c].ids|
    ensures var r := w.reviews[c];
      var id := r.ids[r.at];
      Next(weekOf, w, Select(c))
        == if !Stage2(r) then w
           else WithCall(w, c, r.(pc := if id in EntriesOf(w) && Blocked(r.a, EntriesOf(w)[id]) then Refused(Forbidden)
                                        else Selected))
  {
  }

  lemma RefusedSkips(weekOf: WeekOf, w: World, c: I.CallId)
    requires c in w.reviews && w.reviews[c].pc.Refused?
    ensures Next(weekOf, Next(weekOf, w, Update(c)), Log(c)) == w
  {
    assert Next(weekOf, w, Update(c)) == w;
  }

  lemma OneEntryIs(weekOf: WeekOf, w: World, c: I.CallId)
    requires c in w.reviews && w.reviews[c].pc.Ready? && w.reviews[c].at < |w.reviews[c].ids| && Verdict(w.reviews[c].a)
    ensures var r, after := w.reviews[c], OneEntry(weekOf, w, c);
      var id := r.ids[r.at];
      if Passes(EntriesOf(w), id, r.a)
      then after == WithEntries(w, EntriesOf(w)[id := Touched(r.a, EntriesOf(w)[id])], c, r.(at := r.at + 1))
      else && after.base == w.base && c in after.reviews
           && after.reviews[c].pc == Refused(if id in EntriesOf(w) then Forbidden else DbFault)
  {
    SelectIs(weekOf, w, c);
    var one := Next(weekOf, w, Select(c));
    if one.reviews[c].pc.Refused? { RefusedSkips(weekOf, one, c); } else { TouchIs(weekOf, one, c); }
  }

  lemma RefusedStays(weekOf: WeekOf, w: World, c: I.CallId)
    requires c in w.reviews && w.reviews[c].pc.Refused?
    ensures OneEntry(weekOf, w, c) == w && OneWeek(weekOf, w, c) == w
  {
  }

  /** From `w` on, the batch of call `c` has got through its first `n` ids, or stopped among them, as `batch` says. */
  predicate GotTo(w: World, after: World, c: I.CallId, batch: Batch, n: nat)
    requires c in w.reviews
  {
    && after.base == w.base.(db := w.base.db.(entries := batch.entries))
    && c in after.reviews
    && if batch.stop.None? then after.reviews[c] == w.reviews[c].(at := n)
       else after.reviews[c].pc == Refused(batch.stop.value)
  }

  /** The call has only begun. */
  predicate Fresh(w: World, c: I.CallId) {
    && c in w.reviews && w.reviews[c].pc.Ready? && w.reviews[c].at == w.reviews[c].done == 0 && w.reviews[c].seen == {}
  }

  lemma OneMoreEntry(weekOf: WeekOf, w: World, before: World, c: I.CallId, n: nat)
    requires Fresh(w, c) && n < |w.reviews[c].ids| && Verdict(w.reviews[c].a)
    requires GotTo(w, before, c, RunBatch(EntriesOf(w), w.reviews[c].ids[..n], w.reviews[c].a), n)
    ensures var r := w.reviews[c];
      GotTo(w, OneEntry(weekOf, before, c), c, RunBatch(EntriesOf(w), r.ids[..n + 1], r.a), n + 1)
  {
    var ids := w.reviews[c].ids;
    assert ids[..n + 1][..n] == ids[..n];
    if before.reviews[c].pc.Refused? { RefusedStays(weekOf, before, c); } else { OneEntryIs(weekOf, before, c); }
  }

  lemma {:induction false} AloneIs(weekOf: WeekOf, w: World, c: I.CallId, n: nat)
    requires Fresh(w, c) && n <= |w.reviews[c].ids| && Verdict(w.reviews[c].a)
    ensures GotTo(w, Alone(weekOf, w, c, n), c, RunBatch(EntriesOf(w), w.reviews[c].ids[..n], w.reviews[c].a), n)
  {
    if n > 0 {
      AloneIs(weekOf, w, c, n - 1);
      OneMoreEntry(weekOf, w, Alone(weekOf, w, c, n - 1), c, n - 1);
    }
  }

  /** All statements of the call's next week, with nothing in between. */
  ghost function OneWeek(weekOf: WeekOf, w: World, c: I.CallId): World {
    Next(weekOf, LookedUp(weekOf, w, c), Store(c))
  }

  /** Its week resolved, counted and looked up, and not yet stored. */
  ghost function LookedUp(weekOf: WeekOf, w: World, c: I.CallId): World {
    Next(weekOf, Next(weekOf, Next(weekOf, w, Resolve(c)), Count(c)), Peek(c))
  }

  ghost function Weeks(weekOf: WeekOf, w: World, c: I.CallId, n: nat): World {
    if n == 0 then w else OneWeek(weekOf, Weeks(weekOf, w, c, n - 1), c)
  }

  /** A store of what has just been counted and looked up is the recompute of the week. */
  lemma StoreRowIs(weekOf: WeekOf, entries: Entries, periods: Periods, k: PeriodKey, now: Instant)
    ensures StoreRow(periods, k, RollupOf(weekOf, entries, k), PriorOf(periods, k), now)
      == RecomputeMany(weekOf, entries, periods, {k}, now)
  {
  }

  /** The next week is one the call has not taken up yet. */
  predicate NewWeek(weekOf: WeekOf, w: World, c: I.CallId) {
    && c in w.reviews && w.reviews[c].pc.Ready? && Recomputing(w.reviews[c])
    && var id := w.reviews[c].ids[w.reviews[c].done];
       id in EntriesOf(w) && KeyOf(weekOf, EntriesOf(w)[id]) !in w.reviews[c].seen
  }

  function NextWeek(weekOf: WeekOf, w: World, c: I.CallId): PeriodKey
    requires NewWeek(weekOf, w, c)
  {
    KeyOf(weekOf, EntriesOf(w)[w.reviews[c].ids[w.reviews[c].done]])
  }

  /** The call with week `k` taken up. */
  function TakenUp(r: Review, k: PeriodKey, pc: Pc): Review {
    r.(seen := r.seen + {k}, pc := pc)
  }

  lemma LookedUpIs(weekOf: WeekOf, w: World, c: I.CallId)
    requires NewWeek(weekOf, w, c)
    ensures var k := NextWeek(weekOf, w, c);
      LookedUp(weekOf, w, c)
        == WithCall(w, c, TakenUp(w.reviews[c], k, Peeked(k, RollupOf(weekOf, EntriesOf(w), k), PriorOf(Stored(w), k))))
  {
    var k, r := NextWeek(weekOf, w, c), w.reviews[c];
    var one := Next(weekOf, w, Resolve(c));
    assert one == WithCall(w, c, TakenUp(r, k, Resolved(k)));
    var two := Next(weekOf, one, Count(c));
    assert two == WithCall(w, c, TakenUp(r, k, Counted(k, RollupOf(weekOf, EntriesOf(w), k))));
  }

  lemma OldWeekIs(weekOf: WeekOf, w: World, c: I.CallId)
    requires c in w.reviews && w.reviews[c].pc.Ready? && Recomputing(w.reviews[c]) && !NewWeek(weekOf, w, c)
    ensures OneWeek(weekOf, w, c) == WithCall(w, c, w.reviews[c].(done := w.reviews[c].done + 1))
  {
    assert Next(weekOf, w, Resolve(c)) == WithCall(w, c, w.reviews[c].(done := w.reviews[c].done + 1));
  }

  lemma NewWeekIs(weekOf: WeekOf, w: World, c: I.CallId)
    requires NewWeek(weekOf, w, c)
    ensures var r, k := w.reviews[c], NextWeek(weekOf, w, c);
      OneWeek(weekOf, w, c)
        == WithPeriods(w, RecomputeMany(weekOf, EntriesOf(w), Stored(w), {k}, r.a.now), c,
                       TakenUp(r, k, Ready).(done := r.done + 1))
  {
    LookedUpIs(weekOf, w, c);
    StoreRowIs(weekOf, EntriesOf(w), Stored(w), NextWeek(weekOf, w, c), w.reviews[c].a.now);
  }

  /** The world once `n` ids of the call have been through its recompute. */
  function CaughtUp(weekOf: WeekOf, w: World, c: I.CallId, n: nat): World
    requires c in w.reviews && n <= |w.reviews[c].ids|
  {
    var r := w.reviews[c];
    var keys := AffectedWeeks(weekOf, EntriesOf(w), r.ids[..n]);
    WithPeriods(w, RecomputeMany(weekOf, EntriesOf(w), Stored(w), keys, r.a.now), c, r.(done := n, seen := keys))
  }

  lemma Overwrite(w: World, p: Periods, q: Periods, c: I.CallId, r: Review, s: Review)
    ensures WithPeriods(WithPeriods(w, p, c, r), q, c, s) == WithPeriods(w, q, c, s)
  {
  }

  lemma OneMoreNewWeek(weekOf: WeekOf, w: World, c: I.CallId, n: nat)
    requires c in w.reviews && n < |w.reviews[c].ids| && w.reviews[c].pc.Ready?
    requires NewWeek(weekOf, CaughtUp(weekOf, w, c, n), c)
    ensures OneWeek(weekOf, CaughtUp(weekOf, w, c, n), c) == CaughtUp(weekOf, w, c, n + 1)
  {
    var r, before := w.reviews[c], CaughtUp(weekOf, w, c, n);
    var keys, k := AffectedWeeks(weekOf, EntriesOf(w), r.ids[..n]), NextWeek(weekOf, before, c);
    NewWeekIs(weekOf, before, c);
    AffectedOneMore(weekOf, EntriesOf(w), r.ids, n);
    RecomputeOneMore(weekOf, EntriesOf(w), Stored(w), keys, k, r.a.now);
    Overwrite(w, Stored(before), RecomputeMany(weekOf, EntriesOf(w), Stored(w), keys + {k}, r.a.now), c,
              before.reviews[c], r.(done := n + 1, seen := keys + {k}));
  }

  lemma OneMoreOldWeek(weekOf: WeekOf, w: World, c: I.CallId, n: nat)
    requires c in w.reviews && w.reviews[c].pc.Ready? && w.reviews[c].at == |w.reviews[c].ids|
    requires n < |w.reviews[c].ids| && !NewWeek(weekOf, CaughtUp(weekOf, w, c, n), c)
    ensures OneWeek(weekOf, CaughtUp(weekOf, w, c, n), c) == CaughtUp(weekOf, w, c, n + 1)
  {
    var r, before := w.reviews[c], CaughtUp(weekOf, w, c, n);
    var keys := AffectedWeeks(weekOf, EntriesOf(w), r.ids[..n]);
    OldWeekIs(weekOf, before, c);
    AffectedOneMore(weekOf, EntriesOf(w), r.ids, n);
    if r.ids[n] in EntriesOf(w) { assert keys + {KeyOf(weekOf, EntriesOf(w)[r.ids[n]])} == keys; }
    var s := r.(done := n + 1, seen := keys);
    assert before.reviews[c].(done := n + 1) == s;
    assert WithCall(before, c, s) == WithPeriods(before, Stored(before), c, s);
    assert AffectedWeeks(weekOf, EntriesOf(w), r.ids[..n + 1]) == keys;
    Overwrite(w, Stored(before), Stored(before), c, before.reviews[c], r.(done := n + 1, seen := keys));
  }

  lemma OneMoreWeek(weekOf: WeekOf, w: World, before: World, c: I.CallId, n: nat)
    requires c in w.reviews && w.reviews[c].pc.Ready? && w.reviews[c].at == |w.reviews[c].ids| && n < |w.reviews[c].ids|
    requires before == CaughtUp(weekOf, w, c, n)
    ensures OneWeek(weekOf, before, c) == CaughtUp(weekOf, w, c, n + 1)
  {
    if NewWeek(weekOf, CaughtUp(weekOf, w, c, n), c) { OneMoreNewWeek(weekOf, w, c, n); }
    else { OneMoreOldWeek(weekOf, w, c, n); }
  }

  lemma NoWeeksYet(weekOf: WeekOf, w: World, c: I.CallId)
    requires c in w.reviews && w.reviews[c].done == 0 && w.reviews[c].seen == {}
    ensures CaughtUp(weekOf, w, c, 0) == w
  {
    assert AffectedWeeks(weekOf, EntriesOf(w), w.reviews[c].ids[..0]) == {};
    assert RecomputeMany(weekOf, EntriesOf(w), Stored(w), {}, w.reviews[c].a.now) == Stored(w);
  }

  lemma {:induction false} WeeksAre(weekOf: WeekOf, w: World, c: I.CallId, n: nat)
    requires c in w.reviews && w.reviews[c].pc.Ready? && w.reviews[c].at == |w.reviews[c].ids|
    requires w.reviews[c].done == 0 && w.reviews[c].seen == {} && n <= |w.reviews[c].ids|
    ensures Weeks(weekOf, w, c, n) == CaughtUp(weekOf, w, c, n)
  {
    if n == 0 {
      NoWeeksYet(weekOf, w, c);
    } else {
      WeeksAre(weekOf, w, c, n - 1);
      OneMoreWeek(weekOf, w, Weeks(weekOf, w, c, n - 1), c, n - 1);
    }
  }

  lemma {:induction false} WeeksOfRefused(weekOf: WeekOf, w: World, c: I.CallId, n: nat)
    requires c in w.reviews && w.reviews[c].pc.Refused?
    ensures Weeks(weekOf, w, c, n) == w
  {
    if n > 0 {
      WeeksOfRefused(weekOf, w, c, n - 1);
      RefusedStays(weekOf, w, c);
    }
  }

  /** Left alone, the statements of a batch are the one atomic batch: same tables, same answer. */
  lemma AloneIsAtomic(weekOf: WeekOf, w: World, c: I.CallId)
    requires Fresh(w, c) && Verdict(w.reviews[c].a)
    ensures var r := w.reviews[c];
      var after := Weeks(weekOf, Alone(weekOf, w, c, |r.ids|), c, |r.ids|);
      var whole := Approval(weekOf, w.base.db, r.ids, r.a);
      && after.base.db == whole.db && c in after.reviews
      && match whole.outcome
         case Failed(error) => after.reviews[c].pc == Refused(error)
         case _ => after.reviews[c].pc == Ready && after.reviews[c].done == |r.ids|
  {
    var r := w.reviews[c];
    AloneIs(weekOf, w, c, |r.ids|);
    assert r.ids[..|r.ids|] == r.ids;
    var half := Alone(weekOf, w, c, |r.ids|);
    if half.reviews[c].pc.Refused? { WeeksOfRefused(weekOf, half, c, |r.ids|); }
    else { WeeksAre(weekOf, half, c, |r.ids|); }
  }

  /** So are those of a per-entry unlock. */
  lemma UnlockAloneIsAtomic(weekOf: WeekOf, w: World, c: I.CallId, actor: UserId, id: EntryId, reason: string,
                            now: Instant)
    requires c !in w.reviews && |reason| >= 20
    ensures var begun := Next(weekOf, w, Begin(c, AdminUnlockReq(actor, id, reason, now)));
      var after := OneWeek(weekOf, OneEntry(weekOf, begun, c), c);
      var whole := AdminUnlock(weekOf, w.base.db, actor, id, reason, now);
      && after.base.db == whole.db && c in after.reviews
      && match whole.outcome
         case Failed(error) => after.reviews[c].pc == Refused(error)
         case _ => after.reviews[c].pc == Ready && after.reviews[c].done == 1
  {
    var begun := Next(weekOf, w, Begin(c, AdminUnlockReq(actor, id, reason, now)));
    assert begun == WithCall(w, c, JobOf(AdminUnlockReq(actor, id, reason, now)));
    UnlockEntryIs(weekOf, begun, c);
    var half := OneEntry(weekOf, begun, c);
    if half.reviews[c].pc.Refused? { RefusedStays(weekOf, half, c); } else { NewWeekIs(weekOf, half, c); }
  }

  lemma UnlockEntryIs(weekOf: WeekOf, w: World, c: I.CallId)
    requires Fresh(w, c) && |w.reviews[c].ids| == 1
    requires w.reviews[c].a.fromStatus.FinalApproved? && Unlocks(w.reviews[c].a) && w.reviews[c].a.reason.Some?
    ensures var r, after := w.reviews[c], OneEntry(weekOf, w, c);
      var id := r.ids[0];
      if id in EntriesOf(w) && EntriesOf(w)[id].endAt.Some?
      then
        var unlocked := Unlocked(EntriesOf(w)[id], FinalApproved, r.a.actor, r.a.reason.value, r.a.now);
        after == WithEntries(w, EntriesOf(w)[id := unlocked], c, r.(at := 1))
      else after.base == w.base && c in after.reviews && after.reviews[c].pc == Refused(DbFault)
  {
  }

  /** A transaction with nothing between its count and its commit is the atomic request. */
  lemma TxAloneIsAtomic(weekOf: WeekOf, w: World, t: I.CallId, r: Request)
    requires t !in w.txs && Transacts(weekOf, w.base.db, r)
    ensures Next(weekOf, Next(weekOf, w, Transact(t, r)), Commit(t)) == WithDb(w, Step(weekOf, w.base.db, r))
  {
    TransactIs(weekOf, w, t, r);
    CommitIs(weekOf, Next(weekOf, w, Transact(t, r)), t);
    TxDbIs(weekOf, w.base.db, r);
    assert w.txs[t := Transacted(weekOf, w.base.db, r)] - {t} == w.txs;
  }

  lemma TransactIs(weekOf: WeekOf, w: World, t: I.CallId, r: Request)
    requires t !in w.txs && Transacts(weekOf, w.base.db, r)
    ensures Next(weekOf, w, Transact(t, r)) == w.(txs := w.txs[t := Transacted(weekOf, w.base.db, r)])
  {
  }

  lemma CommitIs(weekOf: WeekOf, w: World, t: I.CallId)
    requires Enabled(weekOf, w, Commit(t))
    ensures Next(weekOf, w, Commit(t)) == WithDb(w, Committed(weekOf, w.base.db, w.txs[t])).(txs := w.txs - {t})
  {
  }

  lemma TxDbIs(weekOf: WeekOf, db: Db, r: Request)
    requires Transacts(weekOf, db, r)
    ensures Committed(weekOf, db, Transacted(weekOf, db, r)) == Step(weekOf, db, r)
  {
    var k, ids := WeekOfTx(weekOf, db, r), IdsOfTx(weekOf, db, r);
    TxEntriesAre(weekOf, db, r);
    StoreRowIs(weekOf, TxEntries(weekOf, db.entries, r, k, ids), TxPeriods(db.periods, r, k), k, r.now);
  }

  lemma TxEntriesAre(weekOf: WeekOf, db: Db, r: Request)
    requires Transacts(weekOf, db, r)
    ensures TxEntries(weekOf, db.entries, r, WeekOfTx(weekOf, db, r), IdsOfTx(weekOf, db, r))
      == Step(weekOf, db, r).entries
  {
  }

  // --- what every event keeps --------------------------------------------------------------

  ghost predicate Sane(w: World) {
    && Struct(w.base.db)
    && forall c :: c in w.reviews ==> Job(w.reviews[c].a)
  }

  lemma UpdateKeepsStruct(db: Db, a: Action, id: EntryId)
    requires Struct(db) && Job(a)
    ensures Struct(db.(entries := UpdateOne(db.entries, a, id)))
  {
    ConstraintsFrame(db.entries, UpdateOne(db.entries, a, id));
  }

  lemma LogKeepsStruct(db: Db, a: Action, id: EntryId)
    requires Struct(db) && id in db.entries
    ensures Struct(db.(entries := LogOne(db.entries, a, id)))
  {
    ConstraintsFrame(db.entries, LogOne(db.entries, a, id));
  }

  lemma CommitKeepsStruct(weekOf: WeekOf, db: Db, tx: Tx)
    requires Struct(db) && (tx.request.SubmitReq? || tx.request.UnlockWeekReq?)
    ensures Struct(Committed(weekOf, db, tx))
  {
    ConstraintsFrame(db.entries, TxEntries(weekOf, db.entries, tx.request, tx.week, tx.ids));
  }

  lemma EventKeepsSane(weekOf: WeekOf, w: World, ev: Event)
    requires Sane(w)
    ensures Sane(Next(weekOf, w, ev))
  {
    if Enabled(weekOf, w, ev) {
      match ev {
        case Other(e) => I.EventKeepsStruct(weekOf, w.base, e);
        case Update(c) => UpdateKeepsStruct(w.base.db, w.reviews[c].a, w.reviews[c].ids[w.reviews[c].at]);
        case Log(c) =>
          var r := w.reviews[c];
          if r.ids[r.at] in EntriesOf(w) { LogKeepsStruct(w.base.db, r.a, r.ids[r.at]); }
        case Store(_) => StructPeriods(w.base.db, Next(weekOf, w, ev).base.db.periods);
        case Commit(t) => CommitKeepsStruct(weekOf, w.base.db, w.txs[t]);
        case _ =>
      }
    }
  }

  lemma {:induction false} AlwaysSane(weekOf: WeekOf, evs: seq<Event>)
    ensures Sane(After(weekOf, evs))
  {
    if evs != [] {
      AlwaysSane(weekOf, evs[..|evs| - 1]);
      EventKeepsSane(weekOf, After(weekOf, evs[..|evs| - 1]), evs[|evs| - 1]);
    }
  }

  /** Ids are handed out once. */
  predicate IdsStay(a: Db, b: Db) {
    a.nextId <= b.nextId && forall id :: id in b.entries && id < a.nextId ==> id in a.entries
  }

  lemma EventKeepsIds(weekOf: WeekOf, w: World, ev: Event)
    requires Struct(w.base.db)
    ensures IdsStay(w.base.db, Next(weekOf, w, ev).base.db)
  {
    if Enabled(weekOf, w, ev) && ev.Other? {
      R.EventKeepsKeys(weekOf, w.base, ev.event);
      R.EventKeepsIds(weekOf, w.base, ev.event);
    }
  }

  lemma SameEntries(weekOf: WeekOf, w: World, ev: Event)
    requires !ev.Update? && !ev.Log? && !ev.Commit? && !ev.Other?
    ensures EntriesOf(Next(weekOf, w, ev)) == EntriesOf(w)
  {
  }

  lemma CallStays(weekOf: WeekOf, w: World, ev: Event, c: I.CallId)
    requires c in w.reviews && (CallOf(ev) == Some(c) ==> !Enabled(weekOf, w, ev))
    ensures c in Next(weekOf, w, ev).reviews && Next(weekOf, w, ev).reviews[c] == w.reviews[c]
  {
  }

  lemma Then(weekOf: WeekOf, evs: seq<Event>, ev: Event)
    ensures After(weekOf, evs + [ev]) == Next(weekOf, After(weekOf, evs), ev)
  {
    assert (evs + [ev])[..|evs|] == evs;
  }
}
