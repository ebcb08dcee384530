/** What an approval batch does, in closed form. */
module Batches {
  import opened Tables
  import opened Rollup
  import opened PeriodRows
  import opened Requests

  /** One of the two approval stages. */
  predicate Verdict(a: Action) {
    || (a.fromStatus.Submitted? && (a.toStatus.ManagerApproved? || a.toStatus.Rejected?))
    || (a.fromStatus.ManagerApproved? && (a.toStatus.FinalApproved? || a.toStatus.Rejected?))
  }

  /** A batch gets past this id. */
  predicate Passes(entries: Entries, id: EntryId, a: Action) {
    id in entries && !Blocked(a, entries[id])
  }

  predicate RunsThrough(entries: Entries, ids: seq<EntryId>, a: Action) {
    forall i :: 0 <= i < |ids| ==> Passes(entries, ids[i], a)
  }

  function TouchedTimes(a: Action, e: Entry, n: nat): Entry {
    if n == 0 then e else Touched(a, TouchedTimes(a, e, n - 1))
  }

  lemma {:induction false} TouchedTimesIs(a: Action, e: Entry, n: nat)
    requires Verdict(a)
    ensures var t := TouchedTimes(a, e, n);
      && t == e.(status := t.status, updatedAt := t.updatedAt, log := t.log)
      && t.status == (if n > 0 && e.status == a.fromStatus then a.toStatus else e.status)
      && (Blocked(a, t) <==> Blocked(a, e))
  {
    if n > 0 {
      TouchedTimesIs(a, e, n - 1);
      var before := TouchedTimes(a, e, n - 1);
      assert Touched(a, before).log[..|before.log|] == before.log;
    }
  }

  /** Every entry as many times as the batch names it. */
  function TouchedAll(entries: Entries, ids: seq<EntryId>, a: Action): Entries {
    map id | id in entries :: TouchedTimes(a, entries[id], multiset(ids)[id])
  }

  /** Naming one more entry touches it once more. */
  lemma TouchedOneMore(entries: Entries, ids: seq<EntryId>, a: Action)
    requires ids != [] && ids[|ids| - 1] in entries
    ensures var front, last := ids[..|ids| - 1], ids[|ids| - 1];
      var before := TouchedAll(entries, front, a);
      TouchedAll(entries, ids, a) == before[last := Touched(a, before[last])]
  {
    var front, last := ids[..|ids| - 1], ids[|ids| - 1];
    assert ids == front + [last];
    assert multiset(ids) == multiset(front)[last := multiset(front)[last] + 1];
  }

  /** A batch of ids that all pass completes, and its result does not depend on their order. */
  lemma {:induction false} BatchClosedForm(entries: Entries, ids: seq<EntryId>, a: Action)
    requires Verdict(a) && RunsThrough(entries, ids, a)
    ensures RunBatch(entries, ids, a) == Batch(TouchedAll(entries, ids, a), None)
  {
    if ids == [] {
      assert TouchedAll(entries, ids, a) == entries;
    } else {
      var n := |ids| - 1;
      var front, last := ids[..n], ids[n];
      BatchClosedForm(entries, front, a);
      TouchedTimesIs(a, entries[last], multiset(front)[last]);
      TouchedOneMore(entries, ids, a);
    }
  }

  /** The batch is its longest passing prefix; it completes exactly when that prefix is the whole list. */
  lemma {:induction false} BatchStopsAt(entries: Entries, ids: seq<EntryId>, a: Action) returns (n: nat)
    requires Verdict(a)
    ensures n <= |ids| && RunsThrough(entries, ids[..n], a)
    ensures n < |ids| ==> !Passes(entries, ids[n], a)
    ensures RunBatch(entries, ids, a).entries == TouchedAll(entries, ids[..n], a)
    ensures RunBatch(entries, ids, a).stop.None? <==> n == |ids|
    ensures RunBatch(entries, ids, a).stop.None? <==> RunsThrough(entries, ids, a)
  {
    if ids == [] {
      n := 0;
      assert TouchedAll(entries, [], a) == entries;
    } else {
      var m := |ids| - 1;
      var front, last := ids[..m], ids[m];
      n := BatchStopsAt(entries, front, a);
      assert front[..n] == ids[..n];
      if n == m {
        assert front[..n] == front;
        var before := RunBatch(entries, front, a);
        if last in entries {
          TouchedTimesIs(a, entries[last], multiset(front)[last]);
        }
        if Passes(entries, last, a) {
          n := |ids|;
          assert ids[..n] == ids;
          BatchClosedForm(entries, ids, a);
        }
      }
    }
  }

  /** How many ids a batch gets through. */
  function FirstStop(entries: Entries, ids: seq<EntryId>, a: Action): (n: nat)
    ensures n <= |ids|
  {
    if ids == [] || !Passes(entries, ids[0], a) then 0 else 1 + FirstStop(entries, ids[1..], a)
  }

  lemma FirstStopIs(entries: Entries, ids: seq<EntryId>, a: Action, n: nat)
    requires n <= |ids| && RunsThrough(entries, ids[..n], a)
    requires n < |ids| ==> !Passes(entries, ids[n], a)
    ensures FirstStop(entries, ids, a) == n
  {
    if n > 0 {
      assert ids[0] == ids[..n][0];
      assert ids[1..][..n - 1] == ids[..n][1..];
      FirstStopIs(entries, ids[1..], a, n - 1);
    }
  }

  /** The statuses a completed batch leaves depend only on which ids it names. */
  lemma BatchStatuses(entries: Entries, ids: seq<EntryId>, a: Action, id: EntryId)
    requires Verdict(a) && RunsThrough(entries, ids, a) && id in entries
    ensures RunBatch(entries, ids, a).entries.Keys == entries.Keys
    ensures var t := RunBatch(entries, ids, a).entries[id];
      && t == entries[id].(status := t.status, updatedAt := t.updatedAt, log := t.log)
      && t.status == (if id in ids && entries[id].status == a.fromStatus then a.toStatus else entries[id].status)
  {
    BatchClosedForm(entries, ids, a);
    TouchedTimesIs(a, entries[id], multiset(ids)[id]);
    assert id in ids <==> id in multiset(ids);
  }

  /** What a batch does to one entry: nothing but status, updated_at and history, and the status only
      along its verdict, for a named id. Also for a batch that stopped. */
  lemma BatchTouches(entries: Entries, ids: seq<EntryId>, a: Action, id: EntryId)
    requires Verdict(a) && id in entries
    ensures RunBatch(entries, ids, a).entries.Keys == entries.Keys
    ensures var t := RunBatch(entries, ids, a).entries[id];
      && t == entries[id].(status := t.status, updatedAt := t.updatedAt, log := t.log)
      && (t.status != entries[id].status ==>
            id in ids && entries[id].status == a.fromStatus && t.status == a.toStatus && Passes(entries, id, a))
  {
    var n := BatchStopsAt(entries, ids, a);
    var front := ids[..n];
    TouchedTimesIs(a, entries[id], multiset(front)[id]);
    if multiset(front)[id] > 0 {
      assert id in front;
      var i :| 0 <= i < |front| && front[i] == id;
      assert ids[i] == id;
    }
  }

  lemma {:induction false} TouchedTimesLogs(a: Action, e: Entry, n: nat)
    requires Verdict(a)
    ensures TouchedTimes(a, e, n).log == e.log + seq(n, _ => Transition(a.fromStatus, a.toStatus, a.actor, a.reason))
    ensures TouchedTimes(a, e, n).updatedAt == (if n > 0 && e.status == a.fromStatus then a.now else e.updatedAt)
  {
    if n > 0 {
      TouchedTimesLogs(a, e, n - 1);
      TouchedTimesIs(a, e, n - 1);
    }
  }

  /** What a completed batch records: a history row for every time an entry is named, whether or not it moved, and
      the time of the batch on exactly the entries that moved. */
  lemma BatchLogs(entries: Entries, ids: seq<EntryId>, a: Action, id: EntryId)
    requires Verdict(a) && RunsThrough(entries, ids, a) && id in entries
    ensures id in RunBatch(entries, ids, a).entries
    ensures var t, n := RunBatch(entries, ids, a).entries[id], multiset(ids)[id];
      && t.log == entries[id].log + seq(n, _ => Transition(a.fromStatus, a.toStatus, a.actor, a.reason))
      && t.updatedAt == (if id in ids && entries[id].status == a.fromStatus then a.now else entries[id].updatedAt)
  {
    BatchClosedForm(entries, ids, a);
    TouchedTimesLogs(a, entries[id], multiset(ids)[id]);
    assert id in ids <==> id in multiset(ids);
  }

  lemma AffectedOneMore(weekOf: WeekOf, entries: Entries, ids: seq<EntryId>, i: nat)
    requires i < |ids|
    ensures AffectedWeeks(weekOf, entries, ids[..i + 1])
         == AffectedWeeks(weekOf, entries, ids[..i])
           + (if ids[i] in entries then {KeyOf(weekOf, entries[ids[i]])} else {})
  {
    assert ids[..i + 1] == ids[..i] + [ids[i]];
    forall id ensures id in ids[..i + 1] <==> id in ids[..i] || id == ids[i] { }
  }

  // --- batch recompute ---------------------------------------------------------------------

  /** Reordering a batch changes neither the entries nor the stored periods it leaves. */
  lemma ApprovalIgnoresOrder(weekOf: WeekOf, db: Db, a: Action, ids: seq<EntryId>, other: seq<EntryId>)
    requires Verdict(a) && RunsThrough(db.entries, ids, a)
    requires multiset(ids) == multiset(other)
    ensures Approval(weekOf, db, other, a) == Approval(weekOf, db, ids, a)
  {
    forall id ensures id in ids <==> id in other {
      assert id in ids <==> id in multiset(ids);
      assert id in other <==> id in multiset(other);
    }
    forall i | 0 <= i < |other| ensures Passes(db.entries, other[i], a) {
      assert other[i] in other && other[i] in ids;
    }
    BatchClosedForm(db.entries, ids, a);
    BatchClosedForm(db.entries, other, a);
    assert TouchedAll(db.entries, ids, a) == TouchedAll(db.entries, other, a);
    var entries := TouchedAll(db.entries, ids, a);
    assert AffectedWeeks(weekOf, entries, ids) == AffectedWeeks(weekOf, entries, other);
  }

  /** After a completed batch on any list of ids, every week it names has stored exactly the rollup of its
      entries (no row reads as open), and every other stored row is untouched. */
  lemma ApprovalRecomputes(weekOf: WeekOf, db: Db, a: Action, ids: seq<EntryId>)
    requires Verdict(a) && RunsThrough(db.entries, ids, a)
    ensures var after := Approval(weekOf, db, ids, a).db;
      && (forall i :: 0 <= i < |ids| ==>
            (var k := KeyOf(weekOf, db.entries[ids[i]]);
             ids[i] in after.entries && KeyOf(weekOf, after.entries[ids[i]]) == k
             && StatusOf(after.periods, k) == RollupOf(weekOf, after.entries, k)))
      && (forall k :: (forall i :: 0 <= i < |ids| ==> k != KeyOf(weekOf, db.entries[ids[i]]))
            ==> (k in after.periods <==> k in db.periods) && (k in db.periods ==> after.periods[k] == db.periods[k]))
  {
    BatchClosedForm(db.entries, ids, a);
    var after := Approval(weekOf, db, ids, a).db;
    forall i | 0 <= i < |ids|
      ensures ids[i] in after.entries && KeyOf(weekOf, after.entries[ids[i]]) == KeyOf(weekOf, db.entries[ids[i]])
    {
      BatchStatuses(db.entries, ids, a, ids[i]);
      assert Passes(db.entries, ids[i], a);
    }
    var keys := AffectedWeeks(weekOf, after.entries, ids);
    RecomputeIsRollup(weekOf, after.entries, db.periods, keys, a.now);
    forall i | 0 <= i < |ids| ensures KeyOf(weekOf, after.entries[ids[i]]) in keys {
      assert ids[i] in ids;
    }
  }
}
