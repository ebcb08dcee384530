/** What submitting and unlocking a week leave behind. */
module Outcomes {
  import opened Tables
  import opened Rollup
  import opened PeriodRows
  import opened Requests
  import opened FrozenWeeks
  import opened Stamps
  import opened Effects

  // --- unlocking a week --------------------------------------------------------------------

  lemma UnlockedEntries(weekOf: WeekOf, entries: Entries, k: PeriodKey, actor: UserId, reason: string, now: Instant)
    ensures var after := UnlockEntries(weekOf, entries, k, actor, reason, now);
      && after.Keys == entries.Keys
      && forall id :: id in entries ==>
           var a, b := entries[id], after[id];
           if KeyOf(weekOf, a) == k && LockedStatus(a.status)
           then b.status.Draft? && SameContent(a, b)
             && b.log == a.log + [Transition(a.status, Draft, actor, Some(reason))]
           else b == a
  {
  }

  lemma UnlockedStatuses(weekOf: WeekOf, entries: Entries, k: PeriodKey, actor: UserId, reason: string, now: Instant)
    ensures var after := UnlockEntries(weekOf, entries, k, actor, reason, now);
      && (forall st :: LockedStatus(st) ==> !Has(weekOf, after, k, st))
      && (Has(weekOf, after, k, Rejected) <==> Has(weekOf, entries, k, Rejected))
  {
    var after := UnlockEntries(weekOf, entries, k, actor, reason, now);
    if Has(weekOf, entries, k, Rejected) {
      var id :| id in entries && KeyOf(weekOf, entries[id]) == k && entries[id].status == Rejected;
      assert id in after;
    }
  }

  /** unlockWeek takes back to draft exactly what is filed in the week, logging each with its own prior status. The week
      ends open, or rejected if a rejected entry stands in it (then reopened_at is not set, whatever the handler's
      comment says); all of it is writable again; no other week's row moves. */
  lemma UnlockWeekReopens(weekOf: WeekOf, db: Db, actor: UserId, k: PeriodKey, reason: string, now: Instant)
    requires |reason| >= 20
    ensures var after := UnlockWeek(weekOf, db, actor, k, reason, now).db;
      && after.entries.Keys == db.entries.Keys
      && (forall id :: id in db.entries ==>
            var a, b := db.entries[id], after.entries[id];
            if KeyOf(weekOf, a) == k && LockedStatus(a.status)
            then b.status.Draft? && SameContent(a, b)
             && b.log == a.log + [Transition(a.status, Draft, actor, Some(reason))]
            else b == a)
      && StatusOf(after.periods, k) == (if Has(weekOf, db.entries, k, Rejected) then PRejected else Open)
      && (forall t :: weekOf(k.user, t) == k.week ==> Writable(weekOf, after.periods, k.user, t))
      && RowOrOpen(after.periods, k).reopenedAt
           == (if IsLocked(db.periods, k) && !Has(weekOf, db.entries, k, Rejected) then Some(now)
               else RowOrOpen(db.periods, k).reopenedAt)
      && (forall other :: other != k ==> RowOrOpen(after.periods, other) == RowOrOpen(db.periods, other))
      && (forall other :: other != k ==> (IsLocked(after.periods, other) <==> IsLocked(db.periods, other)))
  {
    var entries := UnlockEntries(weekOf, db.entries, k, actor, reason, now);
    UnlockedEntries(weekOf, db.entries, k, actor, reason, now);
    UnlockedStatuses(weekOf, db.entries, k, actor, reason, now);
    RecomputeIsRollup(weekOf, entries, db.periods, {k}, now);
  }

  // --- submitting --------------------------------------------------------------------------

  /** The week holds an entry that is not a running timer. */
  predicate HasClosed(weekOf: WeekOf, entries: Entries, k: PeriodKey) {
    exists id :: id in entries && KeyOf(weekOf, entries[id]) == k && !entries[id].status.Running?
  }

  lemma LockedIffFiled(weekOf: WeekOf, entries: Entries, k: PeriodKey)
    ensures LockedPeriod(RollupOf(weekOf, entries, k)) <==>
      HasClosed(weekOf, entries, k) && !Has(weekOf, entries, k, Draft) && !Has(weekOf, entries, k, Rejected)
  {
    if HasClosed(weekOf, entries, k) {
      var id :| id in entries && KeyOf(weekOf, entries[id]) == k && !entries[id].status.Running?;
      assert Has(weekOf, entries, k, entries[id].status);
    }
  }

  lemma SubmittedStatuses(weekOf: WeekOf, entries: Entries, k: PeriodKey, user: UserId, now: Instant)
    ensures var after := SubmitEntries(entries, WeekSet(weekOf, entries, k), user, now);
      && !Has(weekOf, after, k, Draft)
      && (Has(weekOf, after, k, Rejected) <==> Has(weekOf, entries, k, Rejected))
      && (HasClosed(weekOf, after, k) <==> HasClosed(weekOf, entries, k))
  {
    var after := SubmitEntries(entries, WeekSet(weekOf, entries, k), user, now);
    if Has(weekOf, entries, k, Rejected) {
      var id :| id in entries && KeyOf(weekOf, entries[id]) == k && entries[id].status == Rejected;
      assert id in after;
    }
    if HasClosed(weekOf, entries, k) {
      var id :| id in entries && KeyOf(weekOf, entries[id]) == k && !entries[id].status.Running?;
      assert id in after;
    }
  }

  /** The user submits the whole week `k`: the token's if there is one, else that of the entry they name. */
  predicate WeekSubmission(weekOf: WeekOf, db: Db, user: UserId, id: EntryId, token: Option<Week>, k: PeriodKey) {
    && id in db.entries && db.entries[id].user == user
    && k == WeekFor(weekOf, user, db.entries[id].startAt, true, token)
    && 1 <= k.week.isoWeek <= 53 && k.week.isoYear != 0
  }

  /** After a week submission no draft is left in the week, and it is locked exactly when it holds a closed
      entry and no rejected one. */
  lemma SubmitWeekLocksIff(weekOf: WeekOf, db: Db, user: UserId, id: EntryId, token: Option<Week>, k: PeriodKey,
                           now: Instant)
    requires WeekSubmission(weekOf, db, user, id, token, k)
    ensures var after := Submit(weekOf, db, user, id, true, token, now).db;
      && !Has(weekOf, after.entries, k, Draft)
      && (IsLocked(after.periods, k) <==> HasClosed(weekOf, db.entries, k) && !Has(weekOf, db.entries, k, Rejected))
      && k in after.periods && after.periods[k].submittedAt.Some? && after.periods[k].submittedBy.Some?
  {
    var after := Submit(weekOf, db, user, id, true, token, now).db;
    SubmittedStatuses(weekOf, db.entries, k, user, now);
    LockedIffFiled(weekOf, after.entries, k);
    RecomputeIsRollup(weekOf, after.entries, StampSubmission(db.periods, k, user, now), {k}, now);
  }

  lemma NoDraftsNoChange(weekOf: WeekOf, entries: Entries, k: PeriodKey, user: UserId, now: Instant)
    requires !Has(weekOf, entries, k, Draft)
    ensures SubmitEntries(entries, WeekSet(weekOf, entries, k), user, now) == entries
  {
    forall id | id in WeekSet(weekOf, entries, k) ensures !entries[id].status.Draft? { }
  }

  /** Submitting the same week again at once, from any of the user's entries, changes nothing at all. */
  lemma SecondSubmitChangesNothing(weekOf: WeekOf, db: Db, user: UserId, id: EntryId, token: Option<Week>,
                                   k: PeriodKey, now: Instant,
                                   again: EntryId, token2: Option<Week>, later: Instant)
    requires WeekSubmission(weekOf, db, user, id, token, k)
    requires WeekSubmission(weekOf, Submit(weekOf, db, user, id, true, token, now).db, user, again, token2, k)
    ensures var after := Submit(weekOf, db, user, id, true, token, now).db;
      Submit(weekOf, after, user, again, true, token2, later) == Result(after, Done)
  {
    var after := Submit(weekOf, db, user, id, true, token, now).db;
    SubmitWeekLocksIff(weekOf, db, user, id, token, k, now);
    NoDraftsNoChange(weekOf, after.entries, k, user, later);
    assert StampSubmission(after.periods, k, user, later) == after.periods;
    RecomputeIdempotent(weekOf, after.entries, StampSubmission(db.periods, k, user, now), {k}, {k}, now, later);
  }

  /** Submitting one entry locks its week exactly when it was the last draft there and nothing is rejected. */
  lemma SubmitOneLocksIff(weekOf: WeekOf, db: Db, user: UserId, id: EntryId, now: Instant)
    requires id in db.entries && db.entries[id].user == user && db.entries[id].status.Draft?
    requires Insertable(KeyOf(weekOf, db.entries[id]).week)
    ensures var k, after := KeyOf(weekOf, db.entries[id]), Submit(weekOf, db, user, id, false, None, now).db;
      IsLocked(after.periods, k) <==>
        && !Has(weekOf, db.entries, k, Rejected)
        && (forall other :: other in db.entries && other != id && KeyOf(weekOf, db.entries[other]) == k ==>
             !db.entries[other].status.Draft?)
  {
    var k, after := KeyOf(weekOf, db.entries[id]), Submit(weekOf, db, user, id, false, None, now).db;
    assert after.entries == SubmitEntries(db.entries, {id}, user, now);
    RecomputeIsRollup(weekOf, after.entries, StampSubmission(db.periods, k, user, now), {k}, now);
    LockedIffFiled(weekOf, after.entries, k);
    assert HasClosed(weekOf, after.entries, k) by { assert id in after.entries; }
    if Has(weekOf, db.entries, k, Rejected) {
      var r :| r in db.entries && KeyOf(weekOf, db.entries[r]) == k && db.entries[r].status == Rejected;
      assert r in after.entries;
    }
    if d :| d in db.entries && d != id && KeyOf(weekOf, db.entries[d]) == k && db.entries[d].status.Draft? {
      assert d in after.entries;
    }
  }

  // --- submitting and unlocking ------------------------------------------------------------

  /** The history rows the pair leaves on an entry of the week. */
  function PairRows(st: Status, user: UserId, actor: UserId, reason: string): seq<Transition>
  {
    (if st.Draft? then [Transition(Draft, Status.Submitted, user, None)] else [])
    + [Transition(if st.Draft? then Status.Submitted else st, Draft, actor, Some(reason))]
  }

  predicate Taken(st: Status) {
    st.Draft? || LockedStatus(st)
  }

  predicate TakenBack(a: Entry, b: Entry, user: UserId, actor: UserId, reason: string) {
    b.status.Draft? && SameContent(a, b) && b.log == a.log + PairRows(a.status, user, actor, reason)
  }

  lemma PairIs(a: Entry, m: Entry, b: Entry, user: UserId, now: Instant, actor: UserId, reason: string)
    requires if a.status.Draft? then FiledBy(a, m, user, now) else LockedStatus(a.status) && m == a
    requires b.status.Draft? && b.log == m.log + [Transition(m.status, Draft, actor, Some(reason))] && SameContent(m, b)
    ensures TakenBack(a, b, user, actor, reason)
  {
  }

  /** Unlocking a week just submitted takes back what the submission filed, and also what had been filed before: every
      entry of the week that is not rejected or running ends a draft with its content, and its history tells both. */
  lemma SubmitThenUnlockWeek(weekOf: WeekOf, db: Db, user: UserId, id: EntryId, token: Option<Week>, k: PeriodKey,
                             now: Instant, actor: UserId, reason: string, later: Instant)
    requires WeekSubmission(weekOf, db, user, id, token, k) && |reason| >= 20
    ensures var mid := Submit(weekOf, db, user, id, true, token, now).db;
      var end := UnlockWeek(weekOf, mid, actor, k, reason, later).db;
      && end.entries.Keys == db.entries.Keys
      && (forall other :: other in db.entries ==>
            var a, b := db.entries[other], end.entries[other];
            if KeyOf(weekOf, a) == k && Taken(a.status) then TakenBack(a, b, user, actor, reason) else b == a)
      && (forall t :: weekOf(k.user, t) == k.week ==> Writable(weekOf, end.periods, k.user, t))
  {
    var mid := Submit(weekOf, db, user, id, true, token, now).db;
    SubmitFiles(weekOf, db, user, id, true, token, now);
    UnlockWeekReopens(weekOf, mid, actor, k, reason, later);
    var end := UnlockWeek(weekOf, mid, actor, k, reason, later).db;
    forall other | other in db.entries
      ensures var a, b := db.entries[other], end.entries[other];
        if KeyOf(weekOf, a) == k && Taken(a.status) then TakenBack(a, b, user, actor, reason) else b == a
    {
      var a, m, b := db.entries[other], mid.entries[other], end.entries[other];
      assert KeyOf(weekOf, m) == KeyOf(weekOf, a);
      if KeyOf(weekOf, a) == k && Taken(a.status) { PairIs(a, m, b, user, now, actor, reason); }
    }
  }
}
