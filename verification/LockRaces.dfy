/** The stored lock under the interleavings of timers and manual writes: what every event keeps of it, and which events
    make it wrong. A request that recomputes is one event here; StaleCounts takes those apart. */
module LockRaces {
  import opened Tables
  import opened Requests
  import opened LockSoundness
  import opened Batches
  import opened TwoStage
  import opened Interleaving
  import opened WriteRaces

  // --- events that change filed entries of a locked week in no way ------------------------------

  lemma CalmStopSeen(weekOf: WeekOf, a: Entries, seen: set<EntryId>, now: Instant, k: PeriodKey)
    requires TimersKeyed(a)
    ensures Calm(weekOf, a, StopSeen(a, seen, now), k)
  {
  }

  lemma CalmCommit(weekOf: WeekOf, db: Db, user: UserId, key: string, body: Body, seen: set<EntryId>, now: Instant,
                   k: PeriodKey)
    requires Struct(db)
    ensures var after := CommitTimer(weekOf, db, user, key, body, seen, now).db;
      after.periods == db.periods && Calm(weekOf, db.entries, after.entries, k)
  {
    var after := CommitTimer(weekOf, db, user, key, body, seen, now).db;
    if after != db {
      var stopped := StopSeen(db.entries, seen, now);
      CalmStopSeen(weekOf, db.entries, seen, now, k);
      CalmAdd(weekOf, stopped, db.nextId, NewTimer(user, key, body, now), k);
      CalmTrans(weekOf, db.entries, stopped, after.entries, k);
    }
  }

  /** The write takes the entry out of week `k`, by deleting it or by moving it. */
  predicate TakesOut(weekOf: WeekOf, w: World, ev: Event, id: EntryId, k: PeriodKey) {
    && id in w.db.entries && KeyOf(weekOf, w.db.entries[id]) == k
    && (Deletes(w, ev, id) || (Patches(weekOf, w, ev, id) && KeyOf(weekOf, PatchedBy(w, ev, id)) != k))
  }

  lemma CalmFloorDrop(weekOf: WeekOf, a: Entries, id: EntryId, k: PeriodKey)
    ensures CalmFloor(weekOf, a, a - {id}, k)
    ensures !(id in a && KeyOf(weekOf, a[id]) == k && Filed(a[id].status)) ==> Calm(weekOf, a, a - {id}, k)
  {
  }

  lemma CalmFloorMove(weekOf: WeekOf, a: Entries, id: EntryId, e: Entry, k: PeriodKey)
    requires id in a && a[id].status == e.status && a[id].key == e.key
    requires KeyOf(weekOf, e) == KeyOf(weekOf, a[id]) || KeyOf(weekOf, e) != k
    ensures CalmFloor(weekOf, a, a[id := e], k)
    ensures !(KeyOf(weekOf, a[id]) == k && KeyOf(weekOf, e) != k && Filed(e.status)) ==> Calm(weekOf, a, a[id := e], k)
  {
  }

  /** No write lowers a locked week's filed entries, and one that takes none of them out leaves them as they were. */
  lemma WriteCalm(weekOf: WeekOf, w: World, ev: Event, k: PeriodKey)
    requires Struct(w.db) && Enabled(w, ev) && ev.Write? && IsLocked(w.db.periods, k)
    ensures var after := Next(weekOf, w, ev).db.entries;
      && CalmFloor(weekOf, w.db.entries, after, k)
      && ((forall id :: TakesOut(weekOf, w, ev, id, k) ==> !Filed(w.db.entries[id].status)) ==>
            Calm(weekOf, w.db.entries, after, k))
  {
    WriteShape(weekOf, w, ev);
    var a := w.db.entries;
    match w.calls[ev.c].work {
      case EditWork(id, _, _) =>
        if Patches(weekOf, w, ev, id) {
          CalmFloorMove(weekOf, a, id, PatchedBy(w, ev, id), k);
          assert KeyOf(weekOf, a[id]) == k && KeyOf(weekOf, PatchedBy(w, ev, id)) != k ==>
            TakesOut(weekOf, w, ev, id, k);
        }
      case RemoveWork(id) =>
        CalmFloorDrop(weekOf, a, id, k);
        assert id in a && KeyOf(weekOf, a[id]) == k ==> TakesOut(weekOf, w, ev, id, k);
      case CreateWork(m) =>
        assert w.db.nextId !in a;
        CalmAdded(weekOf, a, w.db.nextId, ManualEntry(w.calls[ev.c].user, m, ev.now), k);
      case TimerWork(_, _) =>
    }
  }

  lemma CalmAdded(weekOf: WeekOf, a: Entries, id: EntryId, e: Entry, k: PeriodKey)
    requires id !in a
    ensures Calm(weekOf, a, a, k) && CalmFloor(weekOf, a, a, k)
    ensures KeyOf(weekOf, e) != k ==> Calm(weekOf, a, a[id := e], k) && CalmFloor(weekOf, a, a[id := e], k)
  {
    if KeyOf(weekOf, e) != k { CalmAdd(weekOf, a, id, e, k); CalmKeepsFiled(weekOf, a, a[id := e], k); }
  }

  // --- what every interleaving keeps -----------------------------------------------------------

  lemma CommitKeepsWeek(weekOf: WeekOf, w: World, c: CallId, k: PeriodKey)
    requires Struct(w.db) && Enabled(w, Commit(c))
    ensures var after := Next(weekOf, w, Commit(c)).db;
      && after.periods == w.db.periods && CalmFloor(weekOf, w.db.entries, after.entries, k)
  {
    var call := w.calls[c];
    CalmCommit(weekOf, w.db, call.user, call.work.key, call.work.body, call.pc.running, call.pc.at, k);
    CalmKeepsFiled(weekOf, w.db.entries, Next(weekOf, w, Commit(c)).db.entries, k);
  }

  /** No event breaks the floor of a week's lock, nor puts under it a draft not born as a timer. */
  lemma EventKeepsWeek(weekOf: WeekOf, w: World, ev: Event, k: PeriodKey)
    requires Struct(w.db)
    ensures Floor(weekOf, w.db, k) ==> Floor(weekOf, Next(weekOf, w, ev).db, k)
    ensures TimerDrafts(weekOf, w.db, k) ==> TimerDrafts(weekOf, Next(weekOf, w, ev).db, k)
  {
    if Enabled(w, ev) {
      match ev {
        case Commit(c) =>
          CommitKeepsWeek(weekOf, w, c, k);
          FloorKept(weekOf, w.db, Next(weekOf, w, ev).db, {}, k);
        case Write(_, _) =>
          WriteShape(weekOf, w, ev);
          if IsLocked(w.db.periods, k) { WriteCalm(weekOf, w, ev, k); }
          FloorKept(weekOf, w.db, Next(weekOf, w, ev).db, {}, k);
        case Whole(r) => WeekStep(weekOf, w.db, r, k);
        case _ =>
      }
    }
  }

  lemma EventKeepsBase(weekOf: WeekOf, w: World, ev: Event)
    requires Base(weekOf, w.db)
    ensures Base(weekOf, Next(weekOf, w, ev).db)
  {
    EventKeepsStruct(weekOf, w, ev);
    forall k ensures Floor(weekOf, Next(weekOf, w, ev).db, k) && TimerDrafts(weekOf, Next(weekOf, w, ev).db, k) {
      assert Floor(weekOf, w.db, k) && TimerDrafts(weekOf, w.db, k);
      EventKeepsWeek(weekOf, w, ev, k);
    }
  }

  /** In every interleaving of timers, manual writes and whole requests, crashes and stopped batches included: the table
      guards hold, filed entries of a locked week are rejected or at or above its stored status, and its drafts were
      born as timers. */
  lemma {:induction false} InterleavingsKeepBase(weekOf: WeekOf, evs: seq<Event>)
    ensures Base(weekOf, After(weekOf, START, evs).db)
  {
    if evs != [] {
      InterleavingsKeepBase(weekOf, evs[..|evs| - 1]);
      EventKeepsBase(weekOf, After(weekOf, START, evs[..|evs| - 1]), evs[|evs| - 1]);
    }
  }

  // --- what makes a lock wrong -----------------------------------------------------------------

  /** Week `k` holds an entry other than `id` in status `st`. */
  predicate OtherHas(weekOf: WeekOf, entries: Entries, id: EntryId, k: PeriodKey, st: Status) {
    exists other :: other in entries && other != id && KeyOf(weekOf, entries[other]) == k && entries[other].status == st
  }

  /** `b` is `a` with `id` gone from week `k`, or back to draft there. */
  predicate LeftBy(weekOf: WeekOf, a: Entries, b: Entries, id: EntryId, k: PeriodKey) {
    && (forall other :: other in a && other != id ==> other in b && b[other] == a[other])
    && (forall other :: other in b && other != id ==> other in a)
    && (id in b ==> KeyOf(weekOf, b[id]) != k || b[id].status.Draft?)
  }

  lemma HasWithout(weekOf: WeekOf, a: Entries, b: Entries, id: EntryId, k: PeriodKey, st: Status)
    requires id in a && KeyOf(weekOf, a[id]) == k && LeftBy(weekOf, a, b, id, k) && !st.Draft?
    ensures Has(weekOf, b, k, st) <==> OtherHas(weekOf, a, id, k, st)
    ensures Has(weekOf, a, k, st) <==> OtherHas(weekOf, a, id, k, st) || a[id].status == st
  {
    if Has(weekOf, b, k, st) {
      var other :| other in b && KeyOf(weekOf, b[other]) == k && b[other].status == st;
      assert other in a;
    }
    if OtherHas(weekOf, a, id, k, st) {
      var other :| other in a && other != id && KeyOf(weekOf, a[other]) == k && a[other].status == st;
      assert other in b;
    }
  }

  /** The entry alone holds the stored status of its locked week. */
  predicate HoldsAlone(weekOf: WeekOf, db: Db, id: EntryId, k: PeriodKey)
    requires IsLocked(db.periods, k) && id in db.entries
  {
    var st := EntryStatusOf(db.periods[k].status);
    db.entries[id].status == st && !OtherHas(weekOf, db.entries, id, k, st)
  }

  lemma LeavingKeepsExactIff(weekOf: WeekOf, db: Db, b: Entries, id: EntryId, k: PeriodKey)
    requires IsLocked(db.periods, k) && Exact(weekOf, db, k)
    requires id in db.entries && KeyOf(weekOf, db.entries[id]) == k && LeftBy(weekOf, db.entries, b, id, k)
    ensures Exact(weekOf, db.(entries := b), k) <==> !HoldsAlone(weekOf, db, id, k)
  {
    HasWithout(weekOf, db.entries, b, id, k, Rejected);
    HasWithout(weekOf, db.entries, b, id, k, Status.Submitted);
    HasWithout(weekOf, db.entries, b, id, k, ManagerApproved);
    HasWithout(weekOf, db.entries, b, id, k, FinalApproved);
  }

  lemma WriteBreaksExactIff(weekOf: WeekOf, w: World, ev: Event, k: PeriodKey)
    requires Struct(w.db) && Enabled(w, ev) && ev.Write? && IsLocked(w.db.periods, k) && Exact(weekOf, w.db, k)
    ensures !Exact(weekOf, Next(weekOf, w, ev).db, k) <==>
      exists id :: TakesOut(weekOf, w, ev, id, k) && HoldsAlone(weekOf, w.db, id, k)
  {
    WriteShape(weekOf, w, ev);
    var after := Next(weekOf, w, ev).db;
    if id :| TakesOut(weekOf, w, ev, id, k) {
      TakenOutAlone(weekOf, w, ev, id, k);
      LeavingKeepsExactIff(weekOf, w.db, after.entries, id, k);
      assert Exact(weekOf, after, k) <==> Exact(weekOf, w.db.(entries := after.entries), k);
    } else {
      WriteCalm(weekOf, w, ev, k);
      CalmKeepsFiled(weekOf, w.db.entries, after.entries, k);
    }
  }

  lemma TakenOutAlone(weekOf: WeekOf, w: World, ev: Event, id: EntryId, k: PeriodKey)
    requires TakesOut(weekOf, w, ev, id, k)
    ensures LeftBy(weekOf, w.db.entries, Next(weekOf, w, ev).db.entries, id, k)
    ensures forall other :: TakesOut(weekOf, w, ev, other, k) ==> other == id
  {
    WriteShape(weekOf, w, ev);
  }

  /** The batch is valid but stops half way. */
  ghost predicate Aborts(db: Db, r: Request) {
    IsBatch(r) && r.ids != [] && !ReasonMissing(r.approve, r.why) && !RunsThrough(db.entries, r.ids, VerdictOf(r))
  }

  lemma RequestBreaksExactIff(weekOf: WeekOf, db: Db, r: Request, k: PeriodKey)
    requires Struct(db) && IsLocked(db.periods, k) && Exact(weekOf, db, k)
    ensures !Exact(weekOf, Step(weekOf, db, r), k) <==>
        Aborts(db, r) && !Harmless(weekOf, db, Named(db, r), VerdictOf(r), k)
  {
    if Aborts(db, r) {
      StoppedBatchKeepsExactIff(weekOf, db, r.ids, VerdictOf(r), k);
    } else if IsBatch(r) && !RunsThrough(db.entries, r.ids, VerdictOf(r)) {
      assert Step(weekOf, db, r) == db;
    } else {
      StepPeriods(weekOf, db, r);
      if k !in Recomputed(weekOf, db, r) { StepCalm(weekOf, db, r, k); }
      ExactKept(weekOf, db, Step(weekOf, db, r), Recomputed(weekOf, db, r), k);
    }
  }

  lemma OtherEventsKeepExact(weekOf: WeekOf, w: World, ev: Event, k: PeriodKey)
    requires Struct(w.db) && Exact(weekOf, w.db, k) && !ev.Write? && !ev.Whole?
    ensures Exact(weekOf, Next(weekOf, w, ev).db, k)
  {
    if Enabled(w, ev) && ev.Commit? {
      var call := w.calls[ev.c];
      CalmCommit(weekOf, w.db, call.user, call.work.key, call.work.body, call.pc.running, call.pc.at, k);
      CalmKeepsFiled(weekOf, w.db.entries, Next(weekOf, w, ev).db.entries, k);
    }
  }

  /** In every such interleaving, an event makes an exact lock wrong exactly when it is the write of a checked DELETE or
      PATCH that takes out of the week the only entry at the stored stage, or a batch that stops after moving
      something it should have recomputed. */
  lemma EventBreaksExactIff(weekOf: WeekOf, evs: seq<Event>, ev: Event, k: PeriodKey)
    requires var w := After(weekOf, START, evs); IsLocked(w.db.periods, k) && Exact(weekOf, w.db, k)
    ensures var w := After(weekOf, START, evs);
      !Exact(weekOf, Next(weekOf, w, ev).db, k) <==>
        || (exists id :: TakesOut(weekOf, w, ev, id, k) && HoldsAlone(weekOf, w.db, id, k))
        || (&& ev.Whole? && Aborts(w.db, ev.request)
            && !Harmless(weekOf, w.db, Named(w.db, ev.request), VerdictOf(ev.request), k))
  {
    var w := After(weekOf, START, evs);
    EventsKeepStruct(weekOf, START, evs);
    if ev.Write? {
      if Enabled(w, ev) { WriteBreaksExactIff(weekOf, w, ev, k); }
    } else if ev.Whole? {
      RequestBreaksExactIff(weekOf, w.db, ev.request, k);
    } else {
      OtherEventsKeepExact(weekOf, w, ev, k);
    }
  }
}
