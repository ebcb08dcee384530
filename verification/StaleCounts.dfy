/** The stored lock when a week's count and the store of it lie apart: what a late store does to the lock, and which
    events make a lock wrong, statement by statement. */
module StaleCounts {
  import opened Tables
  import opened Rollup
  import opened PeriodRows
  import opened Requests
  import opened LockSoundness
  import opened Statements
  import I = Interleaving
  import L = LockRaces

  // --- what a store leaves -----------------------------------------------------------------

  /** What was counted for a week, and what the lookup of its row said. */
  datatype Tally = Tally(week: PeriodKey, st: PeriodStatus, prior: Option<PeriodStatus>)

  /** The event stores what a call or a transaction has counted. */
  predicate Stores(weekOf: WeekOf, w: World, ev: Event) {
    Enabled(weekOf, w, ev) && (ev.Store? || ev.Commit?)
  }

  function TallyOf(weekOf: WeekOf, w: World, ev: Event): Tally
    requires Stores(weekOf, w, ev)
  {
    if ev.Store? then Tally(w.reviews[ev.c].pc.week, w.reviews[ev.c].pc.st, w.reviews[ev.c].pc.prior)
    else Tally(w.txs[ev.t].week, w.txs[ev.t].st, w.txs[ev.t].prior)
  }

  /** An open week without a row gets none. */
  predicate Writes(t: Tally) {
    !(t.prior.None? && t.st.Open?)
  }

  /** The entries as the storing event sees them: a transaction sees its own writes. */
  function Seen(weekOf: WeekOf, w: World, ev: Event, entries: Entries): Entries
    requires Stores(weekOf, w, ev)
  {
    if ev.Store? then entries
    else TxEntries(weekOf, entries, w.txs[ev.t].request, w.txs[ev.t].week, w.txs[ev.t].ids)
  }

  /** Rows of timesheet_periods are never deleted, and a submit has stamped its own before it counts. */
  ghost predicate PriorsStand(w: World) {
    && (forall c :: c in w.reviews && w.reviews[c].pc.Peeked? && w.reviews[c].pc.prior.Some? ==>
          w.reviews[c].pc.week in Stored(w))
    && (forall t :: t in w.txs ==>
          if w.txs[t].request.SubmitReq? then w.txs[t].prior.Some?
          else w.txs[t].prior.Some? ==> w.txs[t].week in Stored(w))
  }

  lemma PeriodsGrow(weekOf: WeekOf, w: World, ev: Event)
    ensures Stored(w).Keys <= Stored(Next(weekOf, w, ev)).Keys
  {
    if Enabled(weekOf, w, ev) && ev.Other? { OtherKeepsPeriods(weekOf, w.base, ev.event); }
  }

  lemma OtherKeepsPeriods(weekOf: WeekOf, w: I.World, ev: I.Event)
    requires !(ev.Whole? && Recomputes(ev.request))
    ensures I.Next(weekOf, w, ev).db.periods == w.db.periods
  {
    if ev.Whole? { QuietPeriods(weekOf, w.db, ev.request); }
  }

  lemma PriorsStep(weekOf: WeekOf, w: World, ev: Event)
    requires PriorsStand(w)
    ensures PriorsStand(Next(weekOf, w, ev))
  {
    PeriodsGrow(weekOf, w, ev);
  }

  lemma {:induction false} PriorsAlwaysStand(weekOf: WeekOf, evs: seq<Event>)
    ensures PriorsStand(After(weekOf, evs))
  {
    if evs != [] {
      PriorsAlwaysStand(weekOf, evs[..|evs| - 1]);
      PriorsStep(weekOf, After(weekOf, evs[..|evs| - 1]), evs[|evs| - 1]);
    }
  }

  /** The status of the week's row after the event; no row reads as open. */
  function LeftStatus(weekOf: WeekOf, w: World, ev: Event): PeriodStatus
    requires Stores(weekOf, w, ev)
  {
    var t := TallyOf(weekOf, w, ev);
    if Writes(t) then t.st else StatusOf(Stored(w), t.week)
  }

  lemma StoreRowStatus(periods: Periods, k: PeriodKey, st: PeriodStatus, prior: Option<PeriodStatus>, now: Instant)
    requires prior.Some? ==> k in periods
    ensures var after := StoreRow(periods, k, st, prior, now);
      && StatusOf(after, k) == (if Writes(Tally(k, st, prior)) then st else StatusOf(periods, k))
      && forall other :: other != k ==>
           (other in after <==> other in periods) && (other in periods ==> after[other] == periods[other])
  {
  }

  /** The rows of all other weeks are as they were. */
  ghost predicate OtherWeeksStay(a: Periods, b: Periods, k: PeriodKey) {
    forall other :: other != k ==> (other in b <==> other in a) && (other in a ==> b[other] == a[other])
  }

  lemma StoreLeaves(weekOf: WeekOf, w: World, ev: Event)
    requires Stores(weekOf, w, ev) && PriorsStand(w)
    ensures var t, after := TallyOf(weekOf, w, ev), Next(weekOf, w, ev).base.db;
      && after.entries == Seen(weekOf, w, ev, EntriesOf(w))
      && StatusOf(after.periods, t.week) == LeftStatus(weekOf, w, ev)
      && OtherWeeksStay(Stored(w), after.periods, t.week)
  {
    var t := TallyOf(weekOf, w, ev);
    if ev.Store? {
      StoreRowStatus(Stored(w), t.week, t.st, t.prior, w.reviews[ev.c].a.now);
    } else {
      var r := w.txs[ev.t].request;
      StoreRowStatus(TxPeriods(Stored(w), r, t.week), t.week, t.st, t.prior, r.now);
    }
  }

  // --- what a lock needs -------------------------------------------------------------------

  /** The store leaves week `k` locked above one of its filed entries. */
  ghost predicate LowStore(weekOf: WeekOf, w: World, ev: Event, k: PeriodKey) {
    && Stores(weekOf, w, ev) && TallyOf(weekOf, w, ev).week == k && LockedPeriod(LeftStatus(weekOf, w, ev))
    && var left := Seen(weekOf, w, ev, EntriesOf(w));
       exists id :: id in left && KeyOf(weekOf, left[id]) == k && LockedStatus(left[id].status)
         && Stage(left[id].status) < PeriodStage(LeftStatus(weekOf, w, ev))
  }

  /** It leaves week `k` locked over a draft that was never a timer. */
  ghost predicate DraftStore(weekOf: WeekOf, w: World, ev: Event, k: PeriodKey) {
    && Stores(weekOf, w, ev) && TallyOf(weekOf, w, ev).week == k && LockedPeriod(LeftStatus(weekOf, w, ev))
    && var left := Seen(weekOf, w, ev, EntriesOf(w));
       exists id :: id in left && KeyOf(weekOf, left[id]) == k && left[id].status.Draft? && left[id].key.None?
  }

  /** A per-entry unlock takes an entry that was never a timer back to draft; its week is still locked. */
  predicate UnlocksUnder(weekOf: WeekOf, w: World, ev: Event, k: PeriodKey) {
    && Updates(w, ev) && Unlocks(w.reviews[ev.c].a) && IsLocked(Stored(w), k)
    && var id := w.reviews[ev.c].ids[w.reviews[ev.c].at];
       id in EntriesOf(w) && KeyOf(weekOf, EntriesOf(w)[id]) == k && EntriesOf(w)[id].key.None?
         && !EntriesOf(w)[id].status.Running?
  }

  lemma TxCalm(weekOf: WeekOf, a: Entries, r: Request, week: PeriodKey, ids: set<EntryId>, k: PeriodKey)
    requires (r.SubmitReq? || r.UnlockWeekReq?) && k != week
    ensures CalmFloor(weekOf, a, TxEntries(weekOf, a, r, week, ids), k)
    ensures Calm(weekOf, a, TxEntries(weekOf, a, r, week, ids), k)
  {
  }

  lemma WeekKept(weekOf: WeekOf, db: Db, after: Db, k: PeriodKey)
    requires StatusOf(after.periods, k) == StatusOf(db.periods, k)
    requires CalmFloor(weekOf, db.entries, after.entries, k)
    ensures Floor(weekOf, db, k) ==> Floor(weekOf, after, k)
    ensures TimerDrafts(weekOf, db, k) ==> TimerDrafts(weekOf, after, k)
  {
  }

  /** A store leaves every other week as it was. */
  lemma StoreElsewhere(weekOf: WeekOf, w: World, ev: Event, k: PeriodKey)
    requires Stores(weekOf, w, ev) && PriorsStand(w) && TallyOf(weekOf, w, ev).week != k
    ensures var after := Next(weekOf, w, ev).base.db;
      && Calm(weekOf, EntriesOf(w), after.entries, k) && CalmFloor(weekOf, EntriesOf(w), after.entries, k)
      && StatusOf(after.periods, k) == StatusOf(Stored(w), k)
  {
    StoreLeaves(weekOf, w, ev);
    if ev.Commit? {
      var tx := w.txs[ev.t];
      TxCalm(weekOf, EntriesOf(w), tx.request, tx.week, tx.ids, k);
    }
  }

  lemma StoreFloorIff(weekOf: WeekOf, w: World, ev: Event, k: PeriodKey)
    requires Stores(weekOf, w, ev) && PriorsStand(w)
    requires Floor(weekOf, w.base.db, k)
    ensures !Floor(weekOf, Next(weekOf, w, ev).base.db, k) <==> LowStore(weekOf, w, ev, k)
  {
    if TallyOf(weekOf, w, ev).week == k {
      StoreLeaves(weekOf, w, ev);
    } else {
      StoreElsewhere(weekOf, w, ev, k);
      WeekKept(weekOf, w.base.db, Next(weekOf, w, ev).base.db, k);
    }
  }

  lemma StoreDraftsIff(weekOf: WeekOf, w: World, ev: Event, k: PeriodKey)
    requires Stores(weekOf, w, ev) && PriorsStand(w)
    requires TimerDrafts(weekOf, w.base.db, k)
    ensures !TimerDrafts(weekOf, Next(weekOf, w, ev).base.db, k) <==> DraftStore(weekOf, w, ev, k)
  {
    if TallyOf(weekOf, w, ev).week == k {
      StoreLeaves(weekOf, w, ev);
    } else {
      StoreElsewhere(weekOf, w, ev, k);
      WeekKept(weekOf, w.base.db, Next(weekOf, w, ev).base.db, k);
    }
  }

  lemma UpdateWeek(weekOf: WeekOf, db: Db, a: Action, id: EntryId, k: PeriodKey)
    requires Struct(db) && Job(a)
    ensures var after := db.(entries := UpdateOne(db.entries, a, id));
      && (Floor(weekOf, db, k) ==> Floor(weekOf, after, k))
      && (TimerDrafts(weekOf, db, k) ==>
            (!TimerDrafts(weekOf, after, k) <==>
               && Unlocks(a) && IsLocked(db.periods, k) && id in db.entries && KeyOf(weekOf, db.entries[id]) == k
               && db.entries[id].key.None? && !db.entries[id].status.Running?))
  {
    var b := UpdateOne(db.entries, a, id);
    if id in db.entries {
      assert KeyOf(weekOf, b[id]) == KeyOf(weekOf, db.entries[id]) && b[id].key == db.entries[id].key;
    }
  }

  lemma LogWeek(weekOf: WeekOf, db: Db, a: Action, id: EntryId, k: PeriodKey)
    requires id in db.entries
    ensures var b := LogOne(db.entries, a, id); Calm(weekOf, db.entries, b, k) && CalmFloor(weekOf, db.entries, b, k)
  {
  }

  /** A week's floor gives way at a store into it above one of its filed entries, and at no other event. */
  lemma FloorBreaksIff(weekOf: WeekOf, w: World, ev: Event, k: PeriodKey)
    requires Sane(w) && PriorsStand(w) && Floor(weekOf, w.base.db, k)
    ensures !Floor(weekOf, Next(weekOf, w, ev).base.db, k) <==> LowStore(weekOf, w, ev, k)
  {
    if Enabled(weekOf, w, ev) {
      match ev {
        case Store(_) => StoreFloorIff(weekOf, w, ev, k);
        case Commit(_) => StoreFloorIff(weekOf, w, ev, k);
        case Update(c) => UpdateWeek(weekOf, w.base.db, w.reviews[c].a, w.reviews[c].ids[w.reviews[c].at], k);
        case Log(c) =>
          var r := w.reviews[c];
          if r.ids[r.at] in EntriesOf(w) {
            LogWeek(weekOf, w.base.db, r.a, r.ids[r.at], k);
            WeekKept(weekOf, w.base.db, Next(weekOf, w, ev).base.db, k);
          }
        case Other(e) => L.EventKeepsWeek(weekOf, w.base, e, k);
        case _ => SameDb(weekOf, w, ev);
      }
    }
  }

  lemma SameDb(weekOf: WeekOf, w: World, ev: Event)
    requires !ev.Update? && !ev.Log? && !ev.Store? && !ev.Commit? && !ev.Other?
    ensures Next(weekOf, w, ev).base.db == w.base.db
  {
  }

  /** A draft that was never a timer comes under a week's lock at a store over it, at a per-entry unlock before its
      store, and at no other event. */
  lemma DraftsBreakIff(weekOf: WeekOf, w: World, ev: Event, k: PeriodKey)
    requires Sane(w) && PriorsStand(w) && TimerDrafts(weekOf, w.base.db, k)
    ensures !TimerDrafts(weekOf, Next(weekOf, w, ev).base.db, k) <==>
      DraftStore(weekOf, w, ev, k) || UnlocksUnder(weekOf, w, ev, k)
  {
    if Enabled(weekOf, w, ev) {
      match ev {
        case Store(_) => StoreDraftsIff(weekOf, w, ev, k);
        case Commit(_) => StoreDraftsIff(weekOf, w, ev, k);
        case Update(c) => UpdateWeek(weekOf, w.base.db, w.reviews[c].a, w.reviews[c].ids[w.reviews[c].at], k);
        case Log(c) =>
          var r := w.reviews[c];
          if r.ids[r.at] in EntriesOf(w) {
            LogWeek(weekOf, w.base.db, r.a, r.ids[r.at], k);
            WeekKept(weekOf, w.base.db, Next(weekOf, w, ev).base.db, k);
          }
        case Other(e) => L.EventKeepsWeek(weekOf, w.base, e, k);
        case _ => SameDb(weekOf, w, ev);
      }
    }
  }

  // --- over every run ----------------------------------------------------------------------

  ghost predicate FloorAt(weekOf: WeekOf, evs: seq<Event>, n: int, k: PeriodKey) {
    0 <= n <= |evs| && Floor(weekOf, After(weekOf, evs[..n]).base.db, k)
  }

  ghost predicate LowAt(weekOf: WeekOf, evs: seq<Event>, n: int, k: PeriodKey) {
    0 <= n < |evs| && LowStore(weekOf, After(weekOf, evs[..n]), evs[n], k)
  }

  ghost predicate DraftsAt(weekOf: WeekOf, evs: seq<Event>, n: int, k: PeriodKey) {
    0 <= n <= |evs| && TimerDrafts(weekOf, After(weekOf, evs[..n]).base.db, k)
  }

  ghost predicate UnderAt(weekOf: WeekOf, evs: seq<Event>, n: int, k: PeriodKey) {
    && 0 <= n < |evs|
    && var w := After(weekOf, evs[..n]);
       DraftStore(weekOf, w, evs[n], k) || UnlocksUnder(weekOf, w, evs[n], k)
  }

  lemma OneOn(weekOf: WeekOf, evs: seq<Event>, n: nat)
    requires n < |evs|
    ensures After(weekOf, evs[..n + 1]) == Next(weekOf, After(weekOf, evs[..n]), evs[n])
  {
    assert evs[..n + 1] == evs[..n] + [evs[n]];
    Then(weekOf, evs[..n], evs[n]);
  }

  lemma FloorStep(weekOf: WeekOf, evs: seq<Event>, n: nat, k: PeriodKey)
    requires n < |evs| && FloorAt(weekOf, evs, n, k)
    ensures FloorAt(weekOf, evs, n + 1, k) <==> !LowAt(weekOf, evs, n, k)
  {
    OneOn(weekOf, evs, n);
    AlwaysSane(weekOf, evs[..n]);
    PriorsAlwaysStand(weekOf, evs[..n]);
    FloorBreaksIff(weekOf, After(weekOf, evs[..n]), evs[n], k);
  }

  lemma DraftsStep(weekOf: WeekOf, evs: seq<Event>, n: nat, k: PeriodKey)
    requires n < |evs| && DraftsAt(weekOf, evs, n, k)
    ensures DraftsAt(weekOf, evs, n + 1, k) <==> !UnderAt(weekOf, evs, n, k)
  {
    OneOn(weekOf, evs, n);
    AlwaysSane(weekOf, evs[..n]);
    PriorsAlwaysStand(weekOf, evs[..n]);
    DraftsBreakIff(weekOf, After(weekOf, evs[..n]), evs[n], k);
  }

  lemma {:induction false} FloorUpTo(weekOf: WeekOf, evs: seq<Event>, n: nat, k: PeriodKey)
    requires n <= |evs| && forall m :: 0 <= m < n ==> !LowAt(weekOf, evs, m, k)
    ensures FloorAt(weekOf, evs, n, k)
  {
    if n > 0 {
      FloorUpTo(weekOf, evs, n - 1, k);
      FloorStep(weekOf, evs, n - 1, k);
    }
  }

  lemma {:induction false} DraftsUpTo(weekOf: WeekOf, evs: seq<Event>, n: nat, k: PeriodKey)
    requires n <= |evs| && forall m :: 0 <= m < n ==> !UnderAt(weekOf, evs, m, k)
    ensures DraftsAt(weekOf, evs, n, k)
  {
    if n > 0 {
      DraftsUpTo(weekOf, evs, n - 1, k);
      DraftsStep(weekOf, evs, n - 1, k);
    }
  }

  /** Statement by statement, a locked week's filed entries are rejected or at or above its stored status all along a
      run iff none of its events stores a locked status above one of them. */
  lemma FloorHoldsIff(weekOf: WeekOf, evs: seq<Event>, k: PeriodKey)
    ensures (forall n :: 0 <= n <= |evs| ==> FloorAt(weekOf, evs, n, k)) <==> forall n :: !LowAt(weekOf, evs, n, k)
  {
    if forall n :: 0 <= n <= |evs| ==> FloorAt(weekOf, evs, n, k) {
      forall n | 0 <= n < |evs| ensures !LowAt(weekOf, evs, n, k) {
        assert FloorAt(weekOf, evs, n, k) && FloorAt(weekOf, evs, n + 1, k);
        FloorStep(weekOf, evs, n, k);
      }
    }
    if forall n :: !LowAt(weekOf, evs, n, k) {
      forall n | 0 <= n <= |evs| ensures FloorAt(weekOf, evs, n, k) { FloorUpTo(weekOf, evs, n, k); }
    }
  }

  /** And its drafts were born as timers all along iff none stores a lock over one that was not, and no per-entry unlock
      makes one under the lock. */
  lemma DraftsHoldIff(weekOf: WeekOf, evs: seq<Event>, k: PeriodKey)
    ensures (forall n :: 0 <= n <= |evs| ==> DraftsAt(weekOf, evs, n, k)) <==> forall n :: !UnderAt(weekOf, evs, n, k)
  {
    if forall n :: 0 <= n <= |evs| ==> DraftsAt(weekOf, evs, n, k) {
      forall n | 0 <= n < |evs| ensures !UnderAt(weekOf, evs, n, k) {
        assert DraftsAt(weekOf, evs, n, k) && DraftsAt(weekOf, evs, n + 1, k);
        DraftsStep(weekOf, evs, n, k);
      }
    }
    if forall n :: !UnderAt(weekOf, evs, n, k) {
      forall n | 0 <= n <= |evs| ensures DraftsAt(weekOf, evs, n, k) { DraftsUpTo(weekOf, evs, n, k); }
    }
  }

  ghost predicate BaseAt(weekOf: WeekOf, evs: seq<Event>, n: int) {
    0 <= n <= |evs| && Base(weekOf, After(weekOf, evs[..n]).base.db)
  }

  lemma BaseAtIff(weekOf: WeekOf, evs: seq<Event>, n: int)
    ensures BaseAt(weekOf, evs, n) <==>
      0 <= n <= |evs| && forall k :: FloorAt(weekOf, evs, n, k) && DraftsAt(weekOf, evs, n, k)
  {
    if 0 <= n <= |evs| {
      AlwaysSane(weekOf, evs[..n]);
      var db := After(weekOf, evs[..n]).base.db;
      forall k ensures FloorAt(weekOf, evs, n, k) <==> Floor(weekOf, db, k) { }
      forall k ensures DraftsAt(weekOf, evs, n, k) <==> TimerDrafts(weekOf, db, k) { }
    }
  }

  /** So what every run of whole requests keeps, a run of statements keeps iff no event of it is of these kinds. */
  lemma StatementsKeepBaseIff(weekOf: WeekOf, evs: seq<Event>)
    ensures (forall n :: 0 <= n <= |evs| ==> BaseAt(weekOf, evs, n))
      <==> forall n, k :: !LowAt(weekOf, evs, n, k) && !UnderAt(weekOf, evs, n, k)
  {
    if forall n :: 0 <= n <= |evs| ==> BaseAt(weekOf, evs, n) {
      forall n, k ensures !LowAt(weekOf, evs, n, k) && !UnderAt(weekOf, evs, n, k) { BaseNeeds(weekOf, evs, n, k); }
    }
    if forall n, k :: !LowAt(weekOf, evs, n, k) && !UnderAt(weekOf, evs, n, k) {
      forall n | 0 <= n <= |evs| ensures BaseAt(weekOf, evs, n) {
        forall k ensures FloorAt(weekOf, evs, n, k) && DraftsAt(weekOf, evs, n, k) {
          FloorUpTo(weekOf, evs, n, k);
          DraftsUpTo(weekOf, evs, n, k);
        }
        BaseAtIff(weekOf, evs, n);
      }
    }
  }

  lemma BaseNeeds(weekOf: WeekOf, evs: seq<Event>, n: int, k: PeriodKey)
    requires forall n :: 0 <= n <= |evs| ==> BaseAt(weekOf, evs, n)
    ensures !LowAt(weekOf, evs, n, k) && !UnderAt(weekOf, evs, n, k)
  {
    if 0 <= n < |evs| {
      assert BaseAt(weekOf, evs, n) && BaseAt(weekOf, evs, n + 1);
      BaseAtIff(weekOf, evs, n);
      BaseAtIff(weekOf, evs, n + 1);
      FloorStep(weekOf, evs, n, k);
      DraftsStep(weekOf, evs, n, k);
    }
  }

  // --- counts that are still right ---------------------------------------------------------

  /** Event `n` is the count that the store goes by. */
  ghost predicate CountAt(weekOf: WeekOf, evs: seq<Event>, ev: Event, n: int)
    requires Stores(weekOf, After(weekOf, evs), ev)
  {
    && 0 <= n < |evs| && Enabled(weekOf, After(weekOf, evs[..n]), evs[n])
    && (if ev.Store? then evs[n] == Count(ev.c) else evs[n].Transact? && evs[n].t == ev.t)
    && TallyOf(weekOf, After(weekOf, evs), ev).st == CountedThen(weekOf, evs, ev, n)
  }

  /** The rollup of the week as the storing call or transaction saw it before event `n`. */
  ghost function CountedThen(weekOf: WeekOf, evs: seq<Event>, ev: Event, n: int): PeriodStatus
    requires Stores(weekOf, After(weekOf, evs), ev) && 0 <= n <= |evs|
  {
    var w := After(weekOf, evs);
    RollupOf(weekOf, Seen(weekOf, w, ev, EntriesOf(After(weekOf, evs[..n]))), TallyOf(weekOf, w, ev).week)
  }

  /** The call has counted its week as `st`. */
  predicate Holding(w: World, c: I.CallId, k: PeriodKey, st: PeriodStatus) {
    c in w.reviews && match w.reviews[c].pc
                      case Counted(week, was) => week == k && was == st
                      case Peeked(week, was, _) => week == k && was == st
                      case _ => false
  }

  lemma HoldingStep(weekOf: WeekOf, w: World, ev: Event, c: I.CallId, k: PeriodKey, st: PeriodStatus)
    requires Holding(Next(weekOf, w, ev), c, k, st) && !Holding(w, c, k, st)
    ensures ev == Count(c) && Enabled(weekOf, w, ev) && st == RollupOf(weekOf, EntriesOf(w), k)
  {
  }

  lemma TxStep(weekOf: WeekOf, w: World, ev: Event, t: I.CallId, tx: Tx)
    requires var after := Next(weekOf, w, ev); t in after.txs && after.txs[t] == tx && !(t in w.txs && w.txs[t] == tx)
    ensures ev == Transact(t, tx.request) && Enabled(weekOf, w, ev) && tx == Transacted(weekOf, w.base.db, tx.request)
  {
  }

  lemma {:induction false} FindHolding(weekOf: WeekOf, evs: seq<Event>, c: I.CallId, k: PeriodKey, st: PeriodStatus)
    returns (n: nat)
    requires Holding(After(weekOf, evs), c, k, st)
    ensures n < |evs| && evs[n] == Count(c) && Enabled(weekOf, After(weekOf, evs[..n]), evs[n])
    ensures st == RollupOf(weekOf, EntriesOf(After(weekOf, evs[..n])), k)
  {
    assert evs != [];
    var front := evs[..|evs| - 1];
    if Holding(After(weekOf, front), c, k, st) {
      n := FindHolding(weekOf, front, c, k, st);
      assert front[..n] == evs[..n];
    } else {
      n := |evs| - 1;
      HoldingStep(weekOf, After(weekOf, front), evs[n], c, k, st);
    }
  }

  lemma {:induction false} FindTx(weekOf: WeekOf, evs: seq<Event>, t: I.CallId, tx: Tx) returns (n: nat)
    requires var w := After(weekOf, evs); t in w.txs && w.txs[t] == tx
    ensures n < |evs| && evs[n] == Transact(t, tx.request) && Enabled(weekOf, After(weekOf, evs[..n]), evs[n])
    ensures tx == Transacted(weekOf, After(weekOf, evs[..n]).base.db, tx.request)
  {
    assert evs != [];
    var front := evs[..|evs| - 1];
    var w := After(weekOf, front);
    if t in w.txs && w.txs[t] == tx {
      n := FindTx(weekOf, front, t, tx);
      assert front[..n] == evs[..n];
    } else {
      n := |evs| - 1;
      TxStep(weekOf, w, evs[n], t, tx);
    }
  }

  /** Every store goes by a count. */
  lemma FindCount(weekOf: WeekOf, evs: seq<Event>, ev: Event) returns (n: nat)
    requires Stores(weekOf, After(weekOf, evs), ev)
    ensures CountAt(weekOf, evs, ev, n)
  {
    var w := After(weekOf, evs);
    if ev.Store? {
      n := FindHolding(weekOf, evs, ev.c, w.reviews[ev.c].pc.week, w.reviews[ev.c].pc.st);
    } else {
      n := FindTx(weekOf, evs, ev.t, w.txs[ev.t]);
    }
  }

  /** A store that writes leaves the week's rollup in its row iff the rollup it counted is the rollup now; and whatever
      it leaves is a lock that holds iff what it counted was no lock, or is still the lowest stage filed, with none
      rejected and no draft that was never a timer. */
  lemma StoreRightIff(weekOf: WeekOf, evs: seq<Event>, ev: Event, n: nat)
    requires Stores(weekOf, After(weekOf, evs), ev) && CountAt(weekOf, evs, ev, n)
    requires Writes(TallyOf(weekOf, After(weekOf, evs), ev))
    ensures var k, st := TallyOf(weekOf, After(weekOf, evs), ev).week, CountedThen(weekOf, evs, ev, n);
      var end := Next(weekOf, After(weekOf, evs), ev).base.db;
      && (StatusOf(end.periods, k) == RollupOf(weekOf, end.entries, k) <==> st == CountedThen(weekOf, evs, ev, |evs|))
      && (LockHolds(weekOf, end, k) <==>
            !LockedPeriod(st) || (st == FiledRollup(weekOf, end.entries, k) && OnlyTimerDrafts(weekOf, end.entries, k)))
  {
    PriorsAlwaysStand(weekOf, evs);
    assert evs[..|evs|] == evs;
    StoreHoldsIff(weekOf, After(weekOf, evs), ev);
  }

  lemma StoreHoldsIff(weekOf: WeekOf, w: World, ev: Event)
    requires Stores(weekOf, w, ev) && PriorsStand(w) && Writes(TallyOf(weekOf, w, ev))
    ensures var t, end := TallyOf(weekOf, w, ev), Next(weekOf, w, ev).base.db;
      && StatusOf(end.periods, t.week) == t.st && end.entries == Seen(weekOf, w, ev, EntriesOf(w))
      && (LockHolds(weekOf, end, t.week) <==>
            || !LockedPeriod(t.st)
            || (t.st == FiledRollup(weekOf, end.entries, t.week) && OnlyTimerDrafts(weekOf, end.entries, t.week)))
  {
    StoreLeaves(weekOf, w, ev);
    StatusHoldsIff(weekOf, Next(weekOf, w, ev).base.db, TallyOf(weekOf, w, ev).week, TallyOf(weekOf, w, ev).st);
  }

  lemma StatusHoldsIff(weekOf: WeekOf, db: Db, k: PeriodKey, st: PeriodStatus)
    requires StatusOf(db.periods, k) == st
    ensures LockHolds(weekOf, db, k) <==>
      !LockedPeriod(st) || (st == FiledRollup(weekOf, db.entries, k) && OnlyTimerDrafts(weekOf, db.entries, k))
  {
    LockHoldsIff(weekOf, db, k);
  }

  /** No draft of the week was entered by hand. */
  predicate OnlyTimerDrafts(weekOf: WeekOf, entries: Entries, k: PeriodKey) {
    forall id :: id in entries && KeyOf(weekOf, entries[id]) == k && entries[id].status.Draft? ==> entries[id].key.Some?
  }

  /** The week holds the same statuses in both. */
  ghost predicate SameStatuses(weekOf: WeekOf, a: Entries, b: Entries, k: PeriodKey) {
    forall st: Status :: st != Running ==> (Has(weekOf, a, k, st) <==> Has(weekOf, b, k, st))
  }

  /** Between the count and the store no event changes which statuses the week holds for the storing call. */
  ghost predicate Undisturbed(weekOf: WeekOf, evs: seq<Event>, ev: Event, n: int)
    requires Stores(weekOf, After(weekOf, evs), ev) && 0 <= n
  {
    forall m :: n <= m < |evs| ==> StatusesStay(weekOf, evs, ev, m)
  }

  ghost predicate StatusesStay(weekOf: WeekOf, evs: seq<Event>, ev: Event, m: int)
    requires Stores(weekOf, After(weekOf, evs), ev) && 0 <= m < |evs|
  {
    var w := After(weekOf, evs);
    SameStatuses(weekOf, Seen(weekOf, w, ev, EntriesOf(After(weekOf, evs[..m]))),
                 Seen(weekOf, w, ev, EntriesOf(After(weekOf, evs[..m + 1]))), TallyOf(weekOf, w, ev).week)
  }

  lemma {:induction false} CountStays(weekOf: WeekOf, evs: seq<Event>, ev: Event, n: nat, m: nat)
    requires Stores(weekOf, After(weekOf, evs), ev) && n <= m <= |evs| && Undisturbed(weekOf, evs, ev, n)
    ensures CountedThen(weekOf, evs, ev, m) == CountedThen(weekOf, evs, ev, n)
  {
    if n < m {
      CountStays(weekOf, evs, ev, n, m - 1);
      assert StatusesStay(weekOf, evs, ev, m - 1);
      var w := After(weekOf, evs);
      RollupFrame(weekOf, Seen(weekOf, w, ev, EntriesOf(After(weekOf, evs[..m - 1]))),
                  Seen(weekOf, w, ev, EntriesOf(After(weekOf, evs[..m]))), TallyOf(weekOf, w, ev).week);
    }
  }

  /** The caller's form: whatever else ran, a store leaves the rollup in the row and a lock that holds if no event since
      its count changed which statuses the week holds. */
  lemma UndisturbedStoreHolds(weekOf: WeekOf, evs: seq<Event>, ev: Event, n: nat)
    requires Stores(weekOf, After(weekOf, evs), ev) && CountAt(weekOf, evs, ev, n)
    requires Writes(TallyOf(weekOf, After(weekOf, evs), ev)) && Undisturbed(weekOf, evs, ev, n)
    ensures var k, end := TallyOf(weekOf, After(weekOf, evs), ev).week, Next(weekOf, After(weekOf, evs), ev).base.db;
      StatusOf(end.periods, k) == RollupOf(weekOf, end.entries, k) && LockHolds(weekOf, end, k)
  {
    CountStays(weekOf, evs, ev, n, |evs|);
    StoreRightIff(weekOf, evs, ev, n);
    FreshLockHolds(weekOf, Next(weekOf, After(weekOf, evs), ev).base.db, TallyOf(weekOf, After(weekOf, evs), ev).week);
  }

  lemma FreshLockHolds(weekOf: WeekOf, db: Db, k: PeriodKey)
    requires StatusOf(db.periods, k) == RollupOf(weekOf, db.entries, k)
    ensures LockHolds(weekOf, db, k) && Floor(weekOf, db, k) && TimerDrafts(weekOf, db, k) && Exact(weekOf, db, k)
  {
    assert Recompute(weekOf, db.periods, db, {k});
    RecomputedIsExact(weekOf, db.periods, db, {k}, k);
    ExactLockHolds(weekOf, db, k);
  }

  /** A store into week `k` at event `n`, if there is one, counts what is there now. */
  ghost predicate FreshAt(weekOf: WeekOf, evs: seq<Event>, n: int, k: PeriodKey) {
    0 <= n < |evs| ==>
      var w := After(weekOf, evs[..n]);
      Stores(weekOf, w, evs[n]) && TallyOf(weekOf, w, evs[n]).week == k && Writes(TallyOf(weekOf, w, evs[n])) ==>
        TallyOf(weekOf, w, evs[n]).st == RollupOf(weekOf, Seen(weekOf, w, evs[n], EntriesOf(w)), k)
  }

  lemma UndisturbedIsFresh(weekOf: WeekOf, evs: seq<Event>, n: nat, k: PeriodKey, m: nat)
    requires n < |evs| && Stores(weekOf, After(weekOf, evs[..n]), evs[n])
    requires CountAt(weekOf, evs[..n], evs[n], m) && Undisturbed(weekOf, evs[..n], evs[n], m)
    ensures FreshAt(weekOf, evs, n, k)
  {
    CountStays(weekOf, evs[..n], evs[n], m, n);
    assert evs[..n][..n] == evs[..n];
  }

  lemma FreshIsNotLow(weekOf: WeekOf, w: World, ev: Event, k: PeriodKey)
    requires Stores(weekOf, w, ev) && TallyOf(weekOf, w, ev).week == k && PriorsStand(w) && Floor(weekOf, w.base.db, k)
    requires Writes(TallyOf(weekOf, w, ev)) ==>
        TallyOf(weekOf, w, ev).st == RollupOf(weekOf, Seen(weekOf, w, ev, EntriesOf(w)), k)
    ensures !LowStore(weekOf, w, ev, k)
  {
    if Writes(TallyOf(weekOf, w, ev)) && LockedPeriod(TallyOf(weekOf, w, ev).st) {
      LockMeaning(weekOf, Seen(weekOf, w, ev, EntriesOf(w)), k);
    }
  }

  lemma FreshStep(weekOf: WeekOf, evs: seq<Event>, n: nat, k: PeriodKey)
    requires n < |evs| && FloorAt(weekOf, evs, n, k) && FreshAt(weekOf, evs, n, k)
    ensures FloorAt(weekOf, evs, n + 1, k)
  {
    var w := After(weekOf, evs[..n]);
    PriorsAlwaysStand(weekOf, evs[..n]);
    if Stores(weekOf, w, evs[n]) && TallyOf(weekOf, w, evs[n]).week == k { FreshIsNotLow(weekOf, w, evs[n], k); }
    FloorStep(weekOf, evs, n, k);
  }

  /** As long as every store into a week counts what is there, its floor holds, whatever runs and dies in between. */
  lemma {:induction false} FreshStoresKeepFloor(weekOf: WeekOf, evs: seq<Event>, n: nat, k: PeriodKey)
    requires n <= |evs| && forall m :: 0 <= m < n ==> FreshAt(weekOf, evs, m, k)
    ensures FloorAt(weekOf, evs, n, k)
  {
    if n > 0 {
      FreshStoresKeepFloor(weekOf, evs, n - 1, k);
      FreshStep(weekOf, evs, n - 1, k);
    }
  }

  /** Event `n` stores into week `k`, undisturbed since its count at event `m`. */
  ghost predicate UndisturbedSince(weekOf: WeekOf, evs: seq<Event>, n: nat, m: int)
    requires n < |evs| && Stores(weekOf, After(weekOf, evs[..n]), evs[n])
  {
    0 <= m && CountAt(weekOf, evs[..n], evs[n], m) && Undisturbed(weekOf, evs[..n], evs[n], m)
  }

  ghost predicate StoresInto(weekOf: WeekOf, evs: seq<Event>, n: int, k: PeriodKey) {
    && 0 <= n < |evs| && Stores(weekOf, After(weekOf, evs[..n]), evs[n])
    && TallyOf(weekOf, After(weekOf, evs[..n]), evs[n]).week == k
    && Writes(TallyOf(weekOf, After(weekOf, evs[..n]), evs[n]))
  }

  /** So a week's floor holds all along a run in which each store into it is undisturbed since its count, whatever else
      runs and dies in between. */
  lemma UndisturbedStoresKeepFloor(weekOf: WeekOf, evs: seq<Event>, k: PeriodKey)
    requires forall n: nat :: StoresInto(weekOf, evs, n, k) ==> exists m :: UndisturbedSince(weekOf, evs, n, m)
    ensures forall n :: 0 <= n <= |evs| ==> FloorAt(weekOf, evs, n, k)
  {
    forall n: nat | n < |evs| ensures FreshAt(weekOf, evs, n, k) {
      if StoresInto(weekOf, evs, n, k) {
        var m :| UndisturbedSince(weekOf, evs, n, m);
        UndisturbedIsFresh(weekOf, evs, n, k, m);
      }
    }
    forall n | 0 <= n <= |evs| ensures FloorAt(weekOf, evs, n, k) { FreshStoresKeepFloor(weekOf, evs, n, k); }
  }

  // --- what makes a lock wrong -------------------------------------------------------------

  /** A late store: what was counted at event `n` is a lock, and no longer what the week's filed entries roll up to. */
  ghost predicate Late(weekOf: WeekOf, evs: seq<Event>, ev: Event, k: PeriodKey, n: int) {
    var w := After(weekOf, evs);
    && Stores(weekOf, w, ev) && TallyOf(weekOf, w, ev).week == k && CountAt(weekOf, evs, ev, n)
    && LockedPeriod(CountedThen(weekOf, evs, ev, n))
    && CountedThen(weekOf, evs, ev, n) != FiledRollup(weekOf, Seen(weekOf, w, ev, EntriesOf(w)), k)
  }

  /** A week's unlock that found no row, and so writes none, takes back all that is at the stage now stored. */
  ghost predicate TakesBack(weekOf: WeekOf, w: World, ev: Event, k: PeriodKey)
    requires IsLocked(Stored(w), k)
  {
    && ev.Commit? && Stores(weekOf, w, ev) && w.txs[ev.t].week == k && !Writes(TallyOf(weekOf, w, ev))
    && AllIn(weekOf, w.base.db, w.txs[ev.t].ids, k)
  }

  /** All that is at the stage stored for the week is in `ids`. */
  ghost predicate AllIn(weekOf: WeekOf, db: Db, ids: set<EntryId>, k: PeriodKey)
    requires IsLocked(db.periods, k)
  {
    forall id :: AtStage(weekOf, db, id, k) ==> id in ids
  }

  predicate AtStage(weekOf: WeekOf, db: Db, id: EntryId, k: PeriodKey)
    requires IsLocked(db.periods, k)
  {
    && id in db.entries && KeyOf(weekOf, db.entries[id]) == k
    && db.entries[id].status == EntryStatusOf(db.periods[k].status)
  }

  /** An approval's update that is not harmless to the week, or a per-entry unlock of the only entry at its stage. */
  predicate UpdateHarms(weekOf: WeekOf, w: World, ev: Event, k: PeriodKey)
    requires IsLocked(Stored(w), k)
  {
    && Updates(w, ev)
    && var id, a := w.reviews[ev.c].ids[w.reviews[ev.c].at], w.reviews[ev.c].a;
       if Unlocks(a) then
         id in EntriesOf(w) && KeyOf(weekOf, EntriesOf(w)[id]) == k && L.HoldsAlone(weekOf, w.base.db, id, k)
       else !Harmless(weekOf, w.base.db, [id], a, k)
  }

  /** A checked DELETE or PATCH takes the only entry at the week's stage out of it. */
  ghost predicate WriteHarms(weekOf: WeekOf, w: World, ev: Event, k: PeriodKey)
    requires IsLocked(Stored(w), k)
  {
    ev.Other? && exists id ::
      L.TakesOut(weekOf, w.base, ev.event, id, k) && L.HoldsAlone(weekOf, w.base.db, id, k)
  }

  lemma UpdateHarmsIff(weekOf: WeekOf, w: World, ev: Event, k: PeriodKey)
    requires Sane(w) && Updates(w, ev) && IsLocked(Stored(w), k) && Exact(weekOf, w.base.db, k)
    ensures var r := w.reviews[ev.c];
      !Exact(weekOf, w.base.db.(entries := UpdateOne(EntriesOf(w), r.a, r.ids[r.at])), k)
      <==> UpdateHarms(weekOf, w, ev, k)
  {
    var id, a := w.reviews[ev.c].ids[w.reviews[ev.c].at], w.reviews[ev.c].a;
    var b := UpdateOne(EntriesOf(w), a, id);
    if !Unlocks(a) {
      MovedKeepsExactIff(weekOf, w.base.db, b, [id], a, k);
    } else if id in EntriesOf(w) && KeyOf(weekOf, EntriesOf(w)[id]) == k && !Faults(EntriesOf(w), a, id) {
      L.LeavingKeepsExactIff(weekOf, w.base.db, b, id, k);
    } else {
      UnlockElsewhere(weekOf, w.base.db, a, id, k);
    }
  }

  lemma UnlockElsewhere(weekOf: WeekOf, db: Db, a: Action, id: EntryId, k: PeriodKey)
    requires Unlocks(a) && !(id in db.entries && KeyOf(weekOf, db.entries[id]) == k && !Faults(db.entries, a, id))
    ensures FiledRollup(weekOf, UpdateOne(db.entries, a, id), k) == FiledRollup(weekOf, db.entries, k)
  {
    var b := UpdateOne(db.entries, a, id);
    forall st: Status ensures Has(weekOf, b, k, st) <==> Has(weekOf, db.entries, k, st) {
      if Has(weekOf, b, k, st) {
        var e :| e in b && KeyOf(weekOf, b[e]) == k && b[e].status == st;
        assert e in db.entries;
      }
      if Has(weekOf, db.entries, k, st) {
        var e :| e in db.entries && KeyOf(weekOf, db.entries[e]) == k && db.entries[e].status == st;
        assert e in b;
      }
    }
    RollupFrame(weekOf, b, db.entries, k);
  }

  lemma HasAfterUnlock(weekOf: WeekOf, a: Entries, r: Request, k: PeriodKey, ids: set<EntryId>, st: Status)
    requires r.UnlockWeekReq? && !st.Draft?
    ensures Has(weekOf, TxEntries(weekOf, a, r, k, ids), k, st) <==>
      exists id :: id in a && KeyOf(weekOf, a[id]) == k && a[id].status == st && (id !in ids || !LockedStatus(st))
  {
    var b := TxEntries(weekOf, a, r, k, ids);
    if Has(weekOf, b, k, st) {
      var id :| id in b && KeyOf(weekOf, b[id]) == k && b[id].status == st;
      assert id in a && a[id].status == st;
    }
    if id :| id in a && KeyOf(weekOf, a[id]) == k && a[id].status == st && (id !in ids || !LockedStatus(st)) {
      assert id in b && b[id] == a[id];
    }
  }

  lemma TakesBackIff(weekOf: WeekOf, db: Db, r: Request, k: PeriodKey, ids: set<EntryId>)
    requires r.UnlockWeekReq? && IsLocked(db.periods, k) && Exact(weekOf, db, k)
    ensures !Exact(weekOf, db.(entries := TxEntries(weekOf, db.entries, r, k, ids)), k) <==> AllIn(weekOf, db, ids, k)
  {
    var b := TxEntries(weekOf, db.entries, r, k, ids);
    forall st: Status | Filed(st) ensures Has(weekOf, b, k, st) ==> Has(weekOf, db.entries, k, st) {
      HasAfterUnlock(weekOf, db.entries, r, k, ids, st);
    }
    HasAfterUnlock(weekOf, db.entries, r, k, ids, EntryStatusOf(db.periods[k].status));
    assert Has(weekOf, b, k, EntryStatusOf(db.periods[k].status)) <==>
      exists id :: AtStage(weekOf, db, id, k) && id !in ids;
  }

  lemma WritingExactIff(weekOf: WeekOf, evs: seq<Event>, ev: Event, k: PeriodKey)
    requires var w := After(weekOf, evs);
      Stores(weekOf, w, ev) && TallyOf(weekOf, w, ev).week == k && Writes(TallyOf(weekOf, w, ev))
    ensures !Exact(weekOf, Next(weekOf, After(weekOf, evs), ev).base.db, k) <==> exists n :: Late(weekOf, evs, ev, k, n)
  {
    PriorsAlwaysStand(weekOf, evs);
    StoreHoldsIff(weekOf, After(weekOf, evs), ev);
    var n := FindCount(weekOf, evs, ev);
    assert Late(weekOf, evs, ev, k, n) <==> !Exact(weekOf, Next(weekOf, After(weekOf, evs), ev).base.db, k);
  }

  lemma SkippingExactIff(weekOf: WeekOf, w: World, ev: Event, k: PeriodKey)
    requires Stores(weekOf, w, ev) && TallyOf(weekOf, w, ev).week == k && !Writes(TallyOf(weekOf, w, ev))
    requires PriorsStand(w) && IsLocked(Stored(w), k) && Exact(weekOf, w.base.db, k)
    ensures !Exact(weekOf, Next(weekOf, w, ev).base.db, k) <==> TakesBack(weekOf, w, ev, k)
  {
    StoreLeaves(weekOf, w, ev);
    if ev.Commit? { TakesBackIff(weekOf, w.base.db, w.txs[ev.t].request, k, w.txs[ev.t].ids); }
  }

  lemma StoreExactIff(weekOf: WeekOf, evs: seq<Event>, ev: Event, k: PeriodKey)
    requires var w := After(weekOf, evs);
      Stores(weekOf, w, ev) && IsLocked(Stored(w), k) && Exact(weekOf, w.base.db, k)
    ensures var w := After(weekOf, evs);
      !Exact(weekOf, Next(weekOf, w, ev).base.db, k) <==>
        (exists n :: Late(weekOf, evs, ev, k, n)) || TakesBack(weekOf, w, ev, k)
  {
    var w := After(weekOf, evs);
    PriorsAlwaysStand(weekOf, evs);
    if TallyOf(weekOf, w, ev).week != k {
      StoreElsewhere(weekOf, w, ev, k);
      CalmKeepsFiled(weekOf, EntriesOf(w), EntriesOf(Next(weekOf, w, ev)), k);
    } else if Writes(TallyOf(weekOf, w, ev)) {
      WritingExactIff(weekOf, evs, ev, k);
    } else {
      SkippingExactIff(weekOf, w, ev, k);
    }
  }

  lemma OtherExactIff(weekOf: WeekOf, w: World, ev: I.Event, k: PeriodKey)
    requires Sane(w) && IsLocked(Stored(w), k) && Exact(weekOf, w.base.db, k) && !(ev.Whole? && Recomputes(ev.request))
    ensures !Exact(weekOf, I.Next(weekOf, w.base, ev).db, k) <==> WriteHarms(weekOf, w, Other(ev), k)
  {
    if ev.Write? {
      if I.Enabled(w.base, ev) { L.WriteBreaksExactIff(weekOf, w.base, ev, k); }
    } else if ev.Whole? {
      L.RequestBreaksExactIff(weekOf, w.base.db, ev.request, k);
    } else {
      L.OtherEventsKeepExact(weekOf, w.base, ev, k);
    }
  }

  lemma StatementExactIff(weekOf: WeekOf, w: World, ev: Event, k: PeriodKey)
    requires Sane(w) && IsLocked(Stored(w), k) && Exact(weekOf, w.base.db, k) && !ev.Store? && !ev.Commit?
    ensures !Exact(weekOf, Next(weekOf, w, ev).base.db, k) <==>
      UpdateHarms(weekOf, w, ev, k) || WriteHarms(weekOf, w, ev, k)
  {
    if Enabled(weekOf, w, ev) {
      match ev {
        case Update(_) => UpdateHarmsIff(weekOf, w, ev, k);
        case Log(c) =>
          var r := w.reviews[c];
          if r.ids[r.at] in EntriesOf(w) {
            LogWeek(weekOf, w.base.db, r.a, r.ids[r.at], k);
            CalmKeepsFiled(weekOf, EntriesOf(w), LogOne(EntriesOf(w), r.a, r.ids[r.at]), k);
          }
        case Other(e) => OtherExactIff(weekOf, w, e, k);
        case _ => SameDb(weekOf, w, ev);
      }
    }
  }

  /** Statement by statement, an event makes an exact lock wrong iff it is a late store, the commit of a week's unlock
      that writes no row and takes back all that was at the stored stage, an approval's update that is not harmless, a
      per-entry unlock or a checked write that takes the only entry at the stored stage. */
  lemma ExactBreaksIff(weekOf: WeekOf, evs: seq<Event>, ev: Event, k: PeriodKey)
    requires var w := After(weekOf, evs); IsLocked(Stored(w), k) && Exact(weekOf, w.base.db, k)
    ensures var w := After(weekOf, evs);
      !Exact(weekOf, Next(weekOf, w, ev).base.db, k) <==>
        || (exists n :: Late(weekOf, evs, ev, k, n))
        || TakesBack(weekOf, w, ev, k)
        || UpdateHarms(weekOf, w, ev, k)
        || WriteHarms(weekOf, w, ev, k)
  {
    var w := After(weekOf, evs);
    AlwaysSane(weekOf, evs);
    if Stores(weekOf, w, ev) {
      StoreExactIff(weekOf, evs, ev, k);
    } else if !ev.Store? && !ev.Commit? {
      StatementExactIff(weekOf, w, ev, k);
    }
  }

  // --- a late store ------------------------------------------------------------------------

  /** An unlock of the whole week, carried out while call `c` has a locked status of it counted and still to store. */
  lemma UnlockedMeanwhile(weekOf: WeekOf, w: World, c: I.CallId, t: I.CallId, actor: UserId, reason: string,
                          now: Instant)
    requires c in w.reviews && w.reviews[c].pc.Peeked? && w.reviews[c].pc.week in Stored(w)
    requires t !in w.txs && |reason| >= 20
    ensures var k, r := w.reviews[c].pc.week, UnlockWeekReq(actor, w.reviews[c].pc.week, reason, now);
      var after := Next(weekOf, Next(weekOf, w, Transact(t, r)), Commit(t));
      && after.reviews == w.reviews && k in Stored(after)
      && EntriesOf(after) == UnlockEntries(weekOf, EntriesOf(w), k, actor, reason, now)
  {
    TxAloneIsAtomic(weekOf, w, t, UnlockWeekReq(actor, w.reviews[c].pc.week, reason, now));
    UnlockStep(weekOf, w.base.db, actor, w.reviews[c].pc.week, reason, now);
  }

  lemma UnlockStep(weekOf: WeekOf, db: Db, actor: UserId, k: PeriodKey, reason: string, now: Instant)
    requires |reason| >= 20 && k in db.periods
    ensures var after := Step(weekOf, db, UnlockWeekReq(actor, k, reason, now));
      k in after.periods && after.entries == UnlockEntries(weekOf, db.entries, k, actor, reason, now)
  {
  }

  lemma NoneFiled(weekOf: WeekOf, a: Entries, k: PeriodKey, actor: UserId, reason: string, now: Instant)
    ensures !LockedPeriod(FiledRollup(weekOf, UnlockEntries(weekOf, a, k, actor, reason, now), k))
    ensures forall id :: id in a && KeyOf(weekOf, a[id]) == k && LockedStatus(a[id].status) && a[id].key.None? ==>
      !OnlyTimerDrafts(weekOf, UnlockEntries(weekOf, a, k, actor, reason, now), k)
  {
    var b := UnlockEntries(weekOf, a, k, actor, reason, now);
    forall id | id in a && KeyOf(weekOf, a[id]) == k && LockedStatus(a[id].status) && a[id].key.None?
      ensures !OnlyTimerDrafts(weekOf, b, k)
    {
      assert id in b && KeyOf(weekOf, b[id]) == k && b[id].status.Draft? && b[id].key.None?;
    }
  }

  /** The late store locks the week again, with nothing filed left in it and a draft entered by hand under the lock. */
  lemma LateStoreRelocks(weekOf: WeekOf, w: World, c: I.CallId, t: I.CallId, actor: UserId, reason: string,
                         now: Instant, id: EntryId)
    requires c in w.reviews && w.reviews[c].pc.Peeked? && LockedPeriod(w.reviews[c].pc.st)
    requires w.reviews[c].pc.week in Stored(w) && w.reviews[c].pc.prior.Some? && t !in w.txs && |reason| >= 20
    requires id in EntriesOf(w) && KeyOf(weekOf, EntriesOf(w)[id]) == w.reviews[c].pc.week
        && LockedStatus(EntriesOf(w)[id].status) && EntriesOf(w)[id].key.None?
    ensures var k := w.reviews[c].pc.week;
      var unlocked := Next(weekOf, Next(weekOf, w, Transact(t, UnlockWeekReq(actor, k, reason, now))), Commit(t));
      var end := Next(weekOf, unlocked, Store(c)).base.db;
      IsLocked(end.periods, k) && !Exact(weekOf, end, k) && !TimerDrafts(weekOf, end, k) && !LockHolds(weekOf, end, k)
  {
    var k := w.reviews[c].pc.week;
    UnlockedMeanwhile(weekOf, w, c, t, actor, reason, now);
    NoneFiled(weekOf, EntriesOf(w), k, actor, reason, now);
    var unlocked := Next(weekOf, Next(weekOf, w, Transact(t, UnlockWeekReq(actor, k, reason, now))), Commit(t));
    StoreIs(weekOf, unlocked, c);
    LockHoldsIff(weekOf, Next(weekOf, unlocked, Store(c)).base.db, k);
  }

  lemma StoreIs(weekOf: WeekOf, w: World, c: I.CallId)
    requires c in w.reviews && w.reviews[c].pc.Peeked? && w.reviews[c].pc.week in Stored(w)
    requires w.reviews[c].pc.prior.Some?
    ensures var after := Next(weekOf, w, Store(c)).base.db;
      && after.entries == EntriesOf(w) && w.reviews[c].pc.week in after.periods
      && after.periods[w.reviews[c].pc.week].status == w.reviews[c].pc.st
  {
  }
}
