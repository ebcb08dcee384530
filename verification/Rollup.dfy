/** The derived status of a week: the counting code and the rule it stands for. */
module Rollup {
  import opened Tables

  // --- the rule ----------------------------------------------------------------------------

  /** The lowest status present wins; a rejected entry overrides, a draft or an empty week means open.
      Running entries do not count. */
  function RollupOf(weekOf: WeekOf, entries: Entries, k: PeriodKey): PeriodStatus {
    if Has(weekOf, entries, k, Rejected) then PRejected
    else if Has(weekOf, entries, k, Draft) then Open
    else FiledRollup(weekOf, entries, k)
  }

  /** The same rule with drafts ignored as well: what a stored lock keeps standing for. */
  function FiledRollup(weekOf: WeekOf, entries: Entries, k: PeriodKey): PeriodStatus {
    if Has(weekOf, entries, k, Rejected) then PRejected
    else if Has(weekOf, entries, k, Submitted) then PSubmitted
    else if Has(weekOf, entries, k, ManagerApproved) then PManagerApproved
    else if Has(weekOf, entries, k, FinalApproved) then PFinalApproved
    else Open
  }

  // --- the counting code -------------------------------------------------------------------

  type Counts = map<Status, nat>

  function CountIn(tally: Counts, st: Status): nat {
    if st in tally then tally[st] else 0
  }

  /** period.service.ts `rollup`. */
  function RollupCounts(tally: Counts, total: nat): PeriodStatus {
    if total == 0 then Open
    else if CountIn(tally, Rejected) > 0 then PRejected
    else
      var draft := CountIn(tally, Draft);
      var submitted := CountIn(tally, Submitted);
      var managerApproved := CountIn(tally, ManagerApproved);
      var finalApproved := CountIn(tally, FinalApproved);
      if draft > 0 then Open
      else if finalApproved == total then PFinalApproved
      else if managerApproved + finalApproved == total then PManagerApproved
      else if submitted + managerApproved + finalApproved == total then PSubmitted
      else Open
  }

  /** A row of the GROUP BY status query. */
  datatype CountRow = CountRow(status: Status, n: nat)

  function TotalOf(tally: Counts): nat {
    CountIn(tally, Draft) + CountIn(tally, Submitted) + CountIn(tally, ManagerApproved)
    + CountIn(tally, FinalApproved) + CountIn(tally, Rejected)
  }

  /** What the query can return: one row per status, none for running entries. */
  predicate GroupedRows(rows: seq<CountRow>) {
    && (forall i :: 0 <= i < |rows| ==> !rows[i].status.Running?)
    && (forall i, j :: 0 <= i < j < |rows| ==> rows[i].status != rows[j].status)
  }

  function CountFor(rows: seq<CountRow>, st: Status): nat {
    if rows == [] then 0
    else if rows[|rows| - 1].status == st then rows[|rows| - 1].n
    else CountFor(rows[..|rows| - 1], st)
  }

  lemma AbsentIsZero(rows: seq<CountRow>, st: Status)
    requires forall i :: 0 <= i < |rows| ==> rows[i].status != st
    ensures CountFor(rows, st) == 0
  {
  }

  lemma TotalWithOneMore(tally: Counts, st: Status, n: nat)
    requires !st.Running? && CountIn(tally, st) == 0
    ensures TotalOf(tally[st := n]) == TotalOf(tally) + n
  {
    match st case Draft => case Submitted => case ManagerApproved => case FinalApproved => case Rejected =>
  }

  /** The loop of recomputePeriod: the counts by status and their total, whatever order the rows come in. */
  method Tally(rows: seq<CountRow>) returns (tally: Counts, total: nat)
    requires GroupedRows(rows)
    ensures forall st: Status :: CountIn(tally, st) == CountFor(rows, st)
    ensures total == TotalOf(tally)
  {
    tally, total := map[], 0;
    for i := 0 to |rows|
      invariant forall st: Status :: CountIn(tally, st) == CountFor(rows[..i], st)
      invariant total == TotalOf(tally)
    {
      assert rows[..i + 1][..i] == rows[..i];
      AbsentIsZero(rows[..i], rows[i].status);
      TotalWithOneMore(tally, rows[i].status, rows[i].n);
      tally, total := tally[rows[i].status := rows[i].n], total + rows[i].n;
    }
    assert rows[..|rows|] == rows;
  }

  // --- entry lists -------------------------------------------------------------------------

  /** The rule on a list of entry statuses. */
  function RollupList(list: seq<Status>): PeriodStatus {
    if Rejected in list then PRejected
    else if Draft in list then Open
    else if Submitted in list then PSubmitted
    else if ManagerApproved in list then PManagerApproved
    else if FinalApproved in list then PFinalApproved
    else Open
  }

  /** The counts a GROUP BY over the list's non-running entries gives. */
  predicate CountsOf(list: seq<Status>, tally: Counts) {
    forall st: Status :: CountIn(tally, st) == if st.Running? then 0 else multiset(list)[st]
  }

  /** For every entry list, counting and then deciding gives the rule. */
  lemma CountsRefineRule(list: seq<Status>, tally: Counts)
    requires CountsOf(list, tally)
    ensures RollupCounts(tally, TotalOf(tally)) == RollupList(list)
  {
    forall st: Status | !st.Running? ensures CountIn(tally, st) > 0 <==> st in list {
      assert st in list <==> st in multiset(list);
    }
  }

  lemma RollupIgnoresOrder(a: seq<Status>, b: seq<Status>)
    requires multiset(a) == multiset(b)
    ensures RollupList(a) == RollupList(b)
  {
    forall st: Status ensures st in a <==> st in b {
      assert st in a <==> st in multiset(a);
      assert st in b <==> st in multiset(b);
    }
  }

  /** Moving one entry to a higher stage never lowers the week, and a rejection elsewhere keeps it rejected. */
  lemma AdvancingNeverLowers(list: seq<Status>, i: nat, st: Status)
    requires i < |list| && !list[i].Running? && !list[i].Rejected?
    requires Stage(list[i]) < Stage(st)
    ensures var next := list[i := st];
      && PeriodStage(RollupList(list)) <= PeriodStage(RollupList(next))
      && (RollupList(list).PRejected? <==> RollupList(next).PRejected?)
  {
    var next := list[i := st];
    forall s: Status | s != list[i] && s != st ensures s in list <==> s in next {
      if s in list { var j :| 0 <= j < |list| && list[j] == s; assert next[j] == s; }
      if s in next { var j :| 0 <= j < |next| && next[j] == s; assert list[j] == s; }
    }
    assert list[i] in list && next[i] in next;
    if list[i] in next { }
    forall s: Status | s in next && s != st ensures s in list {
      var j :| 0 <= j < |next| && next[j] == s;
      assert list[j] == s;
    }
  }

  // --- a week of the entry table -----------------------------------------------------------

  function WeekIds(weekOf: WeekOf, entries: Entries, k: PeriodKey, st: Status): set<EntryId> {
    set id | id in entries && KeyOf(weekOf, entries[id]) == k && entries[id].status == st
  }

  /** Counting a week's entries by status and deciding gives the rule over the entry table. */
  lemma WeekCountsRefineRule(weekOf: WeekOf, entries: Entries, k: PeriodKey, tally: Counts)
    requires forall st: Status :: CountIn(tally, st) == if st.Running? then 0 else |WeekIds(weekOf, entries, k, st)|
    ensures RollupCounts(tally, TotalOf(tally)) == RollupOf(weekOf, entries, k)
  {
    forall st: Status ensures |WeekIds(weekOf, entries, k, st)| > 0 <==> Has(weekOf, entries, k, st) {
      var ids := WeekIds(weekOf, entries, k, st);
      if Has(weekOf, entries, k, st) {
        var id :| id in entries && KeyOf(weekOf, entries[id]) == k && entries[id].status == st;
        assert id in ids;
      } else {
        assert ids == {};
      }
    }
  }

  /** The rule looks only at which statuses the week holds. */
  lemma RollupFrame(weekOf: WeekOf, a: Entries, b: Entries, k: PeriodKey)
    requires forall st: Status :: st != Running ==> (Has(weekOf, a, k, st) <==> Has(weekOf, b, k, st))
    ensures RollupOf(weekOf, a, k) == RollupOf(weekOf, b, k)
    ensures FiledRollup(weekOf, a, k) == FiledRollup(weekOf, b, k)
  {
  }

  /** The stored lock spelled out: the filed entries are non-empty, none is rejected, and the status is their lowest
      stage. */
  lemma LockMeaning(weekOf: WeekOf, entries: Entries, k: PeriodKey)
    requires LockedPeriod(FiledRollup(weekOf, entries, k))
    ensures var n := PeriodStage(FiledRollup(weekOf, entries, k));
      && (exists id :: id in entries && KeyOf(weekOf, entries[id]) == k && Stage(entries[id].status) == n)
      && (forall id :: id in entries && KeyOf(weekOf, entries[id]) == k
            ==> !entries[id].status.Rejected? && (LockedStatus(entries[id].status) ==> n <= Stage(entries[id].status)))
  {
    forall id | id in entries && KeyOf(weekOf, entries[id]) == k
      ensures Has(weekOf, entries, k, entries[id].status)
    { }
  }
}
