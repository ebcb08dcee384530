/** Nobody books more time in a window than the window is long. */
module Hours {
  import opened Tables
  import opened Requests
  import opened LockSoundness
  import I = Interleaving
  import S = Statements

  function Max(a: int, b: int): int {
    if a < b then b else a
  }

  function Min(a: int, b: int): int {
    if a < b then a else b
  }

  /** The part of a closed entry that falls into [lo, hi). */
  function Clipped(e: Entry, lo: Instant, hi: Instant): nat {
    if e.endAt.None? then 0 else Max(0, Min(e.endAt.value, hi) - Max(e.startAt, lo))
  }

  ghost function Total(entries: Entries, ids: set<EntryId>, lo: Instant, hi: Instant): nat
    requires ids <= entries.Keys
  {
    if ids == {} then 0
    else
      var id :| id in ids;
      Clipped(entries[id], lo, hi) + Total(entries, ids - {id}, lo, hi)
  }

  /** The sum does not depend on the order in which it is taken. */
  lemma {:induction false} TotalTake(entries: Entries, ids: set<EntryId>, lo: Instant, hi: Instant, x: EntryId)
    requires ids <= entries.Keys && x in ids
    ensures Total(entries, ids, lo, hi) == Clipped(entries[x], lo, hi) + Total(entries, ids - {x}, lo, hi)
    decreases ids
  {
    var id :| id in ids
      && Total(entries, ids, lo, hi) == Clipped(entries[id], lo, hi) + Total(entries, ids - {id}, lo, hi);
    if id != x {
      TotalTake(entries, ids - {id}, lo, hi, x);
      TotalTake(entries, ids - {x}, lo, hi, id);
      assert ids - {id} - {x} == ids - {x} - {id};
    }
  }

  lemma {:induction false} TotalSame(entries: Entries, ids: set<EntryId>, lo: Instant, hi: Instant, hi2: Instant)
    requires ids <= entries.Keys
    requires forall id :: id in ids ==> Clipped(entries[id], lo, hi) == Clipped(entries[id], lo, hi2)
    ensures Total(entries, ids, lo, hi) == Total(entries, ids, lo, hi2)
    decreases ids
  {
    if ids != {} {
      var x :| x in ids;
      TotalTake(entries, ids, lo, hi, x);
      TotalTake(entries, ids, lo, hi2, x);
      TotalSame(entries, ids - {x}, lo, hi, hi2);
    }
  }

  /** Of the entries that reach into the window, one starts last. */
  lemma {:induction false} LastStart(entries: Entries, ids: set<EntryId>) returns (x: EntryId)
    requires ids <= entries.Keys && ids != {}
    ensures x in ids && forall id :: id in ids ==> entries[id].startAt <= entries[x].startAt
    decreases ids
  {
    var first :| first in ids;
    x := first;
    if ids - {first} != {} {
      var y := LastStart(entries, ids - {first});
      if entries[first].startAt < entries[y].startAt { x := y; }
    }
    assert forall id :: id in ids ==> id == first || id in ids - {first};
  }

  /** Pairwise disjoint entries of one user fit into any window. */
  lemma {:induction false} DisjointFits(entries: Entries, ids: set<EntryId>, user: UserId, lo: Instant, hi: Instant)
    requires ids <= entries.Keys && NoOverlap(entries) && lo <= hi
    requires forall id :: id in ids ==> entries[id].user == user && Clipped(entries[id], lo, hi) > 0
    ensures Total(entries, ids, lo, hi) <= hi - lo
    decreases ids
  {
    if ids != {} {
      var x := LastStart(entries, ids);
      var mid := Max(lo, entries[x].startAt);
      forall id | id in ids - {x} ensures Clipped(entries[id], lo, hi) == Clipped(entries[id], lo, mid) {
        assert !Overlap(entries[id], entries[x]);
      }
      TotalTake(entries, ids, lo, hi, x);
      TotalSame(entries, ids - {x}, lo, hi, mid);
      DisjointFits(entries, ids - {x}, user, lo, mid);
    }
  }

  function Reaching(entries: Entries, ids: set<EntryId>, lo: Instant, hi: Instant): set<EntryId>
    requires ids <= entries.Keys
  {
    set id | id in ids && Clipped(entries[id], lo, hi) > 0
  }

  lemma {:induction false} DropEmpty(entries: Entries, ids: set<EntryId>, lo: Instant, hi: Instant)
    requires ids <= entries.Keys
    ensures Total(entries, ids, lo, hi) == Total(entries, Reaching(entries, ids, lo, hi), lo, hi)
    decreases ids
  {
    var full := Reaching(entries, ids, lo, hi);
    if x :| x in ids && x !in full {
      TotalTake(entries, ids, lo, hi, x);
      DropEmpty(entries, ids - {x}, lo, hi);
      assert Reaching(entries, ids - {x}, lo, hi) == full;
    } else {
      assert full == ids;
    }
  }

  function ClosedOf(entries: Entries, user: UserId): set<EntryId> {
    set id | id in entries && entries[id].user == user && entries[id].endAt.Some?
  }

  lemma StructFits(db: Db, user: UserId, lo: Instant, hi: Instant)
    requires Struct(db) && lo <= hi
    ensures Total(db.entries, ClosedOf(db.entries, user), lo, hi) <= hi - lo
  {
    var ids := ClosedOf(db.entries, user);
    DropEmpty(db.entries, ids, lo, hi);
    DisjointFits(db.entries, Reaching(db.entries, ids, lo, hi), user, lo, hi);
  }

  /** In every run, the closed time of a user that falls into a window never exceeds the window. */
  lemma HoursBound(weekOf: WeekOf, rs: seq<Request>, user: UserId, lo: Instant, hi: Instant)
    requires lo <= hi
    ensures var entries := Run(weekOf, rs).entries; Total(entries, ClosedOf(entries, user), lo, hi) <= hi - lo
  {
    RunsKeepBase(weekOf, rs);
    StructFits(Run(weekOf, rs), user, lo, hi);
  }

  /** Nor does it in any interleaving, of timers and manual writes or of the statements of approvals, recomputes and
      transactions. */
  lemma HoursBoundInterleaved(weekOf: WeekOf, evs: seq<I.Event>, statements: seq<S.Event>, user: UserId, lo: Instant,
                              hi: Instant)
    requires lo <= hi
    ensures var entries := I.After(weekOf, I.START, evs).db.entries;
      Total(entries, ClosedOf(entries, user), lo, hi) <= hi - lo
    ensures var entries := S.EntriesOf(S.After(weekOf, statements));
      Total(entries, ClosedOf(entries, user), lo, hi) <= hi - lo
  {
    I.EventsKeepStruct(weekOf, I.START, evs);
    StructFits(I.After(weekOf, I.START, evs).db, user, lo, hi);
    S.AlwaysSane(weekOf, statements);
    StructFits(S.After(weekOf, statements).base.db, user, lo, hi);
  }

  /** The precheck of a manual create is enough: no database constraint ever has to refuse one, in any reachable
      state. */
  lemma ManualNeedsNoBackstop(weekOf: WeekOf, rs: seq<Request>, user: UserId, m: Manual, now: Instant)
    ensures CreateManual(weekOf, Run(weekOf, rs), user, m, now).outcome != Failed(DbFault)
  {
    RunsKeepBase(weekOf, rs);
    PrecheckIsEnough(weekOf, Run(weekOf, rs), user, m, now);
  }

  lemma PrecheckIsEnough(weekOf: WeekOf, db: Db, user: UserId, m: Manual, now: Instant)
    requires Struct(db)
    ensures CreateManual(weekOf, db, user, m, now).outcome != Failed(DbFault)
  {
    var added := ManualEntry(user, m, now);
    var entries := db.entries[db.nextId := added];
    if m.startAt < m.endAt && forall id :: id in db.entries ==> !PreOverlap(db.entries[id], user, m.startAt, m.endAt) {
      assert RowsWellFormed(entries);
      assert NoOverlap(entries) by {
        forall id | id in db.entries ensures !Overlap(db.entries[id], added) && !Overlap(added, db.entries[id]) {
          assert !PreOverlap(db.entries[id], user, m.startAt, m.endAt);
        }
      }
      assert OneRunning(entries) && KeysUnique(entries);
    }
  }
}
