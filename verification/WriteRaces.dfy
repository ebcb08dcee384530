/** What a write that was checked earlier can do to a week or an entry that has been locked since. */
module WriteRaces {
  import opened Tables
  import opened PeriodRows
  import opened Requests
  import opened LockSoundness
  import opened FrozenWeeks
  import opened Interleaving

  /** The event deletes the entry, now. */
  predicate Deletes(w: World, ev: Event, id: EntryId) {
    && Enabled(w, ev) && ev.Write? && w.calls[ev.c].work == RemoveWork(id)
    && id in w.db.entries
  }

  function PatchedBy(w: World, ev: Event, id: EntryId): Entry
    requires ev.Write? && ev.c in w.calls && w.calls[ev.c].work.EditWork? && id in w.db.entries
  {
    Patched(w.db.entries[id], w.calls[ev.c].work.patch, ev.now)
  }

  /** The event rewrites the entry, now: its PATCH passes the trigger and the constraints. */
  predicate Patches(weekOf: WeekOf, w: World, ev: Event, id: EntryId) {
    && Enabled(w, ev) && ev.Write? && w.calls[ev.c].work.EditWork?
    && w.calls[ev.c].work.edited == id && w.calls[ev.c].work.patch != NO_CHANGE
    && id in w.db.entries
    && (PatchedBy(w, ev, id).startAt == w.db.entries[id].startAt
        || Writable(weekOf, w.db.periods, w.db.entries[id].user, PatchedBy(w, ev, id).startAt))
    && Constraints(w.db.entries[id := PatchedBy(w, ev, id)])
  }

  /** A write is a create, or rewrites or deletes one entry. */
  lemma WriteShape(weekOf: WeekOf, w: World, ev: Event)
    requires Enabled(w, ev) && ev.Write?
    ensures var after := Next(weekOf, w, ev);
      && after.db.periods == w.db.periods
      && match w.calls[ev.c].work
         case EditWork(id, _, _) =>
           after.db.entries == if Patches(weekOf, w, ev, id) then w.db.entries[id := PatchedBy(w, ev, id)]
             else w.db.entries
         case RemoveWork(id) => after.db.entries == w.db.entries - {id}
         case CreateWork(m) =>
           || after.db.entries == w.db.entries
           || (&& after.db.entries == w.db.entries[w.db.nextId := ManualEntry(w.calls[ev.c].user, m, ev.now)]
               && Writable(weekOf, w.db.periods, w.calls[ev.c].user, m.startAt))
         case TimerWork(_, _) => after.db.entries == w.db.entries
  {
  }

  // --- content -----------------------------------------------------------------------------

  /** The event changes the content of the entry, or deletes it. */
  ghost predicate Rewrites(weekOf: WeekOf, w: World, ev: Event, id: EntryId) {
    || Deletes(w, ev, id)
    || (Patches(weekOf, w, ev, id) && !SameContent(w.db.entries[id], PatchedBy(w, ev, id)))
  }

  lemma CommitKeepsLocked(weekOf: WeekOf, db: Db, user: UserId, key: string, body: Body, seen: set<EntryId>,
                          now: Instant)
    requires db.nextId !in db.entries
    ensures LockedKept(db.entries, CommitTimer(weekOf, db, user, key, body, seen, now).db.entries)
  {
  }

  lemma NoWriteKeepsLocked(weekOf: WeekOf, w: World, ev: Event)
    requires w.db.nextId !in w.db.entries && !ev.Write?
    ensures LockedKept(w.db.entries, Next(weekOf, w, ev).db.entries)
  {
    if Enabled(w, ev) {
      match ev {
        case Commit(c) =>
          var call := w.calls[c];
          CommitKeepsLocked(weekOf, w.db, call.user, call.work.key, call.work.body, call.pc.running, call.pc.at);
        case Whole(r) => StepFreezes(weekOf, w.db, r, PeriodKey(0, Week(0, 0)));
        case _ =>
      }
    }
  }

  lemma DeleteKeepsLockedIff(a: Entries, id: EntryId)
    ensures LockedKept(a, a - {id}) <==> !(id in a && LockedStatus(a[id].status))
  {
  }

  lemma RewriteKeepsLockedIff(a: Entries, id: EntryId, e: Entry)
    requires id in a
    ensures LockedKept(a, a[id := e]) <==> !LockedStatus(a[id].status) || SameContent(a[id], e)
  {
  }

  lemma WriteKeepsLockedIff(weekOf: WeekOf, w: World, ev: Event)
    requires w.db.nextId !in w.db.entries && Enabled(w, ev) && ev.Write?
    ensures var work := w.calls[ev.c].work;
      LockedKept(w.db.entries, Next(weekOf, w, ev).db.entries) <==>
        match work
        case EditWork(id, _, _) =>
          !(id in w.db.entries && LockedStatus(w.db.entries[id].status) && Rewrites(weekOf, w, ev, id))
        case RemoveWork(id) =>
          !(id in w.db.entries && LockedStatus(w.db.entries[id].status) && Rewrites(weekOf, w, ev, id))
        case _ => true
  {
    WriteShape(weekOf, w, ev);
    match w.calls[ev.c].work {
      case EditWork(id, _, _) =>
        if Patches(weekOf, w, ev, id) { RewriteKeepsLockedIff(w.db.entries, id, PatchedBy(w, ev, id)); }
      case RemoveWork(id) => DeleteKeepsLockedIff(w.db.entries, id);
      case _ =>
    }
  }

  /** In every interleaving, an event changes the content of an entry in a locked status, or deletes it, exactly when
      it is the write of a checked DELETE of that entry, or of a checked PATCH of it that still passes the trigger and
      the constraints and gives a field another value. */
  lemma ChangesLockedEntryIff(weekOf: WeekOf, evs: seq<Event>, ev: Event)
    ensures var w := After(weekOf, START, evs);
      !LockedKept(w.db.entries, Next(weekOf, w, ev).db.entries) <==>
        exists id :: id in w.db.entries && LockedStatus(w.db.entries[id].status) && Rewrites(weekOf, w, ev, id)
  {
    var w := After(weekOf, START, evs);
    EventsKeepStruct(weekOf, START, evs);
    assert w.db.nextId !in w.db.entries;
    if !ev.Write? { NoWriteKeepsLocked(weekOf, w, ev); }
    else if Enabled(w, ev) { WriteKeepsLockedIff(weekOf, w, ev); }
  }

  // --- since the check ---------------------------------------------------------------------

  /** The events in order are `evs`; the one at `n` is a check of call `c` that the call passed, with what it is now. */
  ghost predicate CheckedAt(weekOf: WeekOf, evs: seq<Event>, c: CallId, n: nat) {
    && n < |evs| && evs[n].Check? && evs[n].c == c
    && c in After(weekOf, START, evs).calls && c in After(weekOf, START, evs[..n]).calls
    && var was, now := After(weekOf, START, evs[..n]).calls[c], After(weekOf, START, evs).calls[c];
    && now == was.(pc := Checked)
    && Precheck(weekOf, After(weekOf, START, evs[..n]).db, was.user, was.work, evs[n].appNow).Checked?
  }

  /** Between check and write a call is only waiting. */
  lemma WaitingStays(weekOf: WeekOf, w: World, ev: Event, c: CallId)
    requires var after := Next(weekOf, w, ev); c in after.calls && after.calls[c].pc.Checked?
    ensures c in w.calls
    ensures w.calls[c].pc.Checked? ==> Next(weekOf, w, ev).calls[c] == w.calls[c]
    ensures !w.calls[c].pc.Checked? ==>
      && Enabled(w, ev) && ev.Check? && ev.c == c && Next(weekOf, w, ev).calls[c] == w.calls[c].(pc := Checked)
      && Precheck(weekOf, w.db, w.calls[c].user, w.calls[c].work, ev.appNow).Checked?
  {
  }

  /** A call that is ready to write has passed its check. */
  lemma {:induction false} HasChecked(weekOf: WeekOf, evs: seq<Event>, c: CallId) returns (n: nat)
    requires c in After(weekOf, START, evs).calls && After(weekOf, START, evs).calls[c].pc.Checked?
    ensures CheckedAt(weekOf, evs, c, n)
  {
    assert evs != [];
    var front := evs[..|evs| - 1];
    WaitingStays(weekOf, After(weekOf, START, front), evs[|evs| - 1], c);
    if After(weekOf, START, front).calls[c].pc.Checked? {
      n := HasChecked(weekOf, front, c);
      assert front[..n] == evs[..n];
    } else {
      n := |evs| - 1;
    }
  }

  predicate InLockedStatus(w: World, id: EntryId) {
    id in w.db.entries && LockedStatus(w.db.entries[id].status)
  }

  /** Event `m` takes the entry into a locked status. */
  ghost predicate LocksEntryAt(weekOf: WeekOf, evs: seq<Event>, m: nat, id: EntryId) {
    && m < |evs|
    && !InLockedStatus(After(weekOf, START, evs[..m]), id) && InLockedStatus(After(weekOf, START, evs[..m + 1]), id)
  }

  /** Event `m` locks the week. */
  ghost predicate LocksWeekAt(weekOf: WeekOf, evs: seq<Event>, m: nat, k: PeriodKey) {
    && m < |evs|
    && !IsLocked(After(weekOf, START, evs[..m]).db.periods, k)
         && IsLocked(After(weekOf, START, evs[..m + 1]).db.periods, k)
  }

  lemma {:induction false} EntryCrosses(weekOf: WeekOf, evs: seq<Event>, n: nat, id: EntryId) returns (m: nat)
    requires n <= |evs| && !InLockedStatus(After(weekOf, START, evs[..n]), id)
        && InLockedStatus(After(weekOf, START, evs), id)
    ensures n <= m && LocksEntryAt(weekOf, evs, m, id)
    decreases |evs| - n
  {
    assert evs[..|evs|] == evs;
    m := n;
    if !InLockedStatus(After(weekOf, START, evs[..n + 1]), id) { m := EntryCrosses(weekOf, evs, n + 1, id); }
  }

  lemma {:induction false} WeekCrosses(weekOf: WeekOf, evs: seq<Event>, n: nat, k: PeriodKey) returns (m: nat)
    requires n <= |evs| && IsLocked(After(weekOf, START, evs).db.periods, k)
    requires !IsLocked(After(weekOf, START, evs[..n]).db.periods, k)
    ensures n <= m && LocksWeekAt(weekOf, evs, m, k)
    decreases |evs| - n
  {
    assert evs[..|evs|] == evs;
    m := n;
    if !IsLocked(After(weekOf, START, evs[..n + 1]).db.periods, k) { m := WeekCrosses(weekOf, evs, n + 1, k); }
  }

  /** An entry in a locked status is changed or deleted only by a call that checked it before it was locked. */
  lemma LockedSinceCheck(weekOf: WeekOf, evs: seq<Event>, ev: Event, id: EntryId) returns (n: nat, m: nat)
    requires var w := After(weekOf, START, evs); InLockedStatus(w, id) && Rewrites(weekOf, w, ev, id)
    ensures n <= m && CheckedAt(weekOf, evs, ev.c, n) && LocksEntryAt(weekOf, evs, m, id)
  {
    n := HasChecked(weekOf, evs, ev.c);
    m := EntryCrosses(weekOf, evs, n, id);
  }

  /** So a call whose entry nobody locks between its check and its write leaves locked entries alone. */
  lemma UndisturbedKeepsLocked(weekOf: WeekOf, evs: seq<Event>, ev: Event)
    requires ev.Write?
    requires forall n: nat, m: nat, id: EntryId ::
      CheckedAt(weekOf, evs, ev.c, n) && LocksEntryAt(weekOf, evs, m, id) ==> m < n
    ensures var w := After(weekOf, START, evs); LockedKept(w.db.entries, Next(weekOf, w, ev).db.entries)
  {
    var w := After(weekOf, START, evs);
    ChangesLockedEntryIff(weekOf, evs, ev);
    if id :| id in w.db.entries && LockedStatus(w.db.entries[id].status) && Rewrites(weekOf, w, ev, id) {
      var n, m := LockedSinceCheck(weekOf, evs, ev, id);
    }
  }

  // --- deletions from a locked week --------------------------------------------------------

  lemma DeletesNothing(weekOf: WeekOf, w: World, ev: Event, k: PeriodKey)
    requires Struct(w.db) && Enabled(w, ev) && IsLocked(w.db.periods, k)
    requires ev.Write? ==> !w.calls[ev.c].work.RemoveWork?
    ensures NoneDeleted(weekOf, w.db.entries, Next(weekOf, w, ev).db.entries, k)
  {
    if ev.Whole? {
      assert w.db.nextId !in w.db.entries;
      StepFreezes(weekOf, w.db, ev.request, k);
    }
  }

  /** While a week stays locked from event `n` on, nothing joins it. */
  lemma {:induction false} NothingJoinsSince(weekOf: WeekOf, evs: seq<Event>, n: nat, k: PeriodKey)
    requires n <= |evs|
    requires forall m :: n <= m < |evs| ==> IsLocked(After(weekOf, START, evs[..m]).db.periods, k)
    ensures NoneJoins(weekOf, After(weekOf, START, evs[..n]).db.entries, After(weekOf, START, evs).db.entries, k)
    decreases |evs|
  {
    if n == |evs| {
      assert evs[..n] == evs;
    } else {
      var front := evs[..|evs| - 1];
      forall m | n <= m < |front| ensures IsLocked(After(weekOf, START, front[..m]).db.periods, k) {
        assert front[..m] == evs[..m];
      }
      NothingJoinsSince(weekOf, front, n, k);
      assert front[..n] == evs[..n];
      LockedWeekTakesNothingInConcurrently(weekOf, front, evs[|evs| - 1], k);
      FrozenTrans(weekOf, After(weekOf, START, evs[..n]).db.entries, After(weekOf, START, front).db.entries,
                  After(weekOf, START, evs).db.entries, k);
    }
  }

  /** The call passed its check, and the week was locked after that. */
  ghost predicate LockedAfterCheck(weekOf: WeekOf, evs: seq<Event>, c: CallId, k: PeriodKey) {
    exists n: nat, m: nat :: n <= m && CheckedAt(weekOf, evs, c, n) && LocksWeekAt(weekOf, evs, m, k)
  }

  lemma DeleteWasBeforeLock(weekOf: WeekOf, evs: seq<Event>, ev: Event, id: EntryId, k: PeriodKey)
    requires var w := After(weekOf, START, evs);
      IsLocked(w.db.periods, k) && Deletes(w, ev, id) && KeyOf(weekOf, w.db.entries[id]) == k
    ensures LockedAfterCheck(weekOf, evs, ev.c, k)
  {
    var n := HasChecked(weekOf, evs, ev.c);
    var was := After(weekOf, START, evs[..n]).db;
    if forall m :: n <= m < |evs| ==> IsLocked(After(weekOf, START, evs[..m]).db.periods, k) {
      NothingJoinsSince(weekOf, evs, n, k);
      assert false;
    }
    var open :| n <= open < |evs| && !IsLocked(After(weekOf, START, evs[..open]).db.periods, k);
    var m := WeekCrosses(weekOf, evs, open, k);
  }

  /** In every interleaving, an event takes an entry out of a week locked at that moment by deleting it exactly when it
      is the DELETE of a call that checked before the week was locked. */
  lemma DeletesFromLockedWeekIff(weekOf: WeekOf, evs: seq<Event>, ev: Event, k: PeriodKey)
    requires IsLocked(After(weekOf, START, evs).db.periods, k)
    ensures var w := After(weekOf, START, evs);
      !NoneDeleted(weekOf, w.db.entries, Next(weekOf, w, ev).db.entries, k) <==>
        && ev.Write? && LockedAfterCheck(weekOf, evs, ev.c, k)
        && exists id :: Deletes(w, ev, id) && KeyOf(weekOf, w.db.entries[id]) == k
  {
    var w := After(weekOf, START, evs);
    EventsKeepStruct(weekOf, START, evs);
    if Enabled(w, ev) {
      if ev.Write? && w.calls[ev.c].work.RemoveWork? {
        var id := w.calls[ev.c].work.removed;
        WriteShape(weekOf, w, ev);
        if Deletes(w, ev, id) && KeyOf(weekOf, w.db.entries[id]) == k { DeleteWasBeforeLock(weekOf, evs, ev, id, k); }
      } else {
        DeletesNothing(weekOf, w, ev, k);
      }
    }
  }

  /** So a DELETE whose week nobody locks between its check and its write deletes from no locked week. */
  lemma UndisturbedDeletesNothing(weekOf: WeekOf, evs: seq<Event>, ev: Event, k: PeriodKey)
    requires IsLocked(After(weekOf, START, evs).db.periods, k) && ev.Write?
    requires forall n: nat, m: nat :: CheckedAt(weekOf, evs, ev.c, n) && LocksWeekAt(weekOf, evs, m, k) ==> m < n
    ensures var w := After(weekOf, START, evs); NoneDeleted(weekOf, w.db.entries, Next(weekOf, w, ev).db.entries, k)
  {
    DeletesFromLockedWeekIff(weekOf, evs, ev, k);
  }
}
