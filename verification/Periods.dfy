/** The lock table: the writability check, and recomputation of stored rows from the entries. */
module PeriodRows {
  import opened Tables
  import opened Rollup

  predicate Writable(weekOf: WeekOf, periods: Periods, user: UserId, at: Instant) {
    !IsLocked(periods, PeriodKey(user, weekOf(user, at)))
  }

  /** Has reached stage 1, the statuses for which manager_approved_at is kept. */
  predicate Approved(st: PeriodStatus) {
    st.PManagerApproved? || st.PFinalApproved?
  }

  /** The row recomputePeriod inserts when the week has none. */
  function FirstRow(st: PeriodStatus, now: Instant): Period {
    Period(st, None, None,
           if Approved(st) then Some(now) else None,
           if st.PFinalApproved? then Some(now) else None,
           None)
  }

  /** The row recomputePeriod leaves where one exists. */
  function UpdatedRow(p: Period, st: PeriodStatus, now: Instant): Period {
    p.(status := st,
       managerApprovedAt := if !Approved(st) then None
                            else if p.managerApprovedAt.None? then Some(now) else p.managerApprovedAt,
       finalApprovedAt := if !st.PFinalApproved? then None
                          else if p.finalApprovedAt.None? then Some(now) else p.finalApprovedAt,
       reopenedAt := if LockedPeriod(p.status) && st.Open? then Some(now) else p.reopenedAt)
  }

  /** The stored row of week `k` after a recompute; an open week that has no row gets none. */
  function RowAfter(weekOf: WeekOf, entries: Entries, periods: Periods, k: PeriodKey, now: Instant): Option<Period> {
    var st := RollupOf(weekOf, entries, k);
    if k in periods then Some(UpdatedRow(periods[k], st, now))
    else if st.Open? then None
    else Some(FirstRow(st, now))
  }

  /** Recompute every week in `keys`, each from the rows as they stood before. */
  function RecomputeMany(weekOf: WeekOf, entries: Entries, periods: Periods, keys: set<PeriodKey>,
                         now: Instant): Periods {
    map k | k in periods.Keys + keys && (k !in keys || RowAfter(weekOf, entries, periods, k, now).Some?)
      :: if k in keys then RowAfter(weekOf, entries, periods, k, now).value else periods[k]
  }

  /** A week with no row reads as open. */
  function StatusOf(periods: Periods, k: PeriodKey): PeriodStatus {
    if k in periods then periods[k].status else Open
  }

  /** After a recompute the stored status of every named week is the rollup of its entries, and no other row moved. */
  lemma RecomputeIsRollup(weekOf: WeekOf, entries: Entries, periods: Periods, keys: set<PeriodKey>, now: Instant)
    ensures var after := RecomputeMany(weekOf, entries, periods, keys, now);
      && (forall k :: k in keys ==> StatusOf(after, k) == RollupOf(weekOf, entries, k))
      && (forall k :: k !in keys ==> ((k in after <==> k in periods) && (k in periods ==> after[k] == periods[k])))
  {
  }

  /** Recomputing one week at a time, in any order without repetition, is recomputing the set. */
  lemma RecomputeOneMore(weekOf: WeekOf, entries: Entries, periods: Periods, keys: set<PeriodKey>, k: PeriodKey,
                         now: Instant)
    requires k !in keys
    ensures RecomputeMany(weekOf, entries, RecomputeMany(weekOf, entries, periods, keys, now), {k}, now)
         == RecomputeMany(weekOf, entries, periods, keys + {k}, now)
  {
  }

  /** Recompute is idempotent: a later second pass over weeks already recomputed changes nothing. */
  lemma RecomputeIdempotent(weekOf: WeekOf, entries: Entries, periods: Periods, keys: set<PeriodKey>,
                            more: set<PeriodKey>,
                            now: Instant, later: Instant)
    requires more <= keys
    ensures var once := RecomputeMany(weekOf, entries, periods, keys, now);
      RecomputeMany(weekOf, entries, once, more, later) == once
  {
    var once := RecomputeMany(weekOf, entries, periods, keys, now);
    forall k | k in more ensures k in once ==> RowAfter(weekOf, entries, once, k, later) == Some(once[k])
    {
      if k in once {
        assert once[k] == RowAfter(weekOf, entries, periods, k, now).value;
        assert once[k].status == RollupOf(weekOf, entries, k);
      }
    }
    assert RecomputeMany(weekOf, entries, once, more, later) == once;
  }

}
