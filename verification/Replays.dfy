/** Retries of timer requests: after a crash, and after an answer. */
module Replays {
  import opened Tables
  import opened Requests
  import opened LockSoundness
  import opened FrozenWeeks
  import opened TwoStage
  import opened Interleaving

  lemma {:induction false} AfterJoin(weekOf: WeekOf, w: World, a: seq<Event>, b: seq<Event>)
    ensures After(weekOf, w, a + b) == After(weekOf, After(weekOf, w, a), b)
  {
    if b == [] {
      assert a + b == a;
    } else {
      AfterJoin(weekOf, w, a, b[..|b| - 1]);
      assert (a + b)[..|a + b| - 1] == a + b[..|b| - 1];
    }
  }

  // --- entries keep their key --------------------------------------------------------------

  /** Entries that stay keep owner and key, none runs again, and new ones have new ids. */
  predicate KeysStay(a: Entries, next: EntryId, b: Entries) {
    forall id :: id in b && id < next ==>
      && id in a && b[id].user == a[id].user && b[id].key == a[id].key
      && (b[id].status.Running? ==> a[id].status.Running?)
  }

  lemma TimersKeepKeys(weekOf: WeekOf, db: Db, r: Request)
    requires Struct(db) && (r.StartReq? || r.SwitchReq? || r.StopReq? || r.CleanupReq?)
    ensures KeysStay(db.entries, db.nextId, Step(weekOf, db, r).entries)
  {
    if r.StartReq? { StartShape(weekOf, db, r.user, r.key, r.body, r.appNow, r.now); }
    else if r.SwitchReq? { StartShape(weekOf, db, r.user, r.key, r.body.(mood := None), r.appNow, r.now); }
    else { StopShape(weekOf, db, r); }
  }

  lemma StatusOnlyKeepsKeys(a: Entries, next: EntryId, b: Entries)
    requires StatusOnly(a, b) && Constraints(a) && Constraints(b)
    ensures KeysStay(a, next, b)
  {
    forall id | id in b ensures b[id].user == a[id].user && b[id].key == a[id].key && b[id].endAt == a[id].endAt { }
    forall id | id in b ensures EndMatchesStatus(a[id]) && EndMatchesStatus(b[id]) { }
  }

  lemma StatusRequestsKeepKeys(weekOf: WeekOf, db: Db, r: Request)
    requires Struct(db) && (r.SubmitReq? || r.AdminUnlockReq? || r.UnlockWeekReq? || IsBatch(r))
    ensures KeysStay(db.entries, db.nextId, Step(weekOf, db, r).entries)
  {
    StructStep(weekOf, db, r);
    if IsBatch(r) { ApprovalStatusOnly(weekOf, db, r.ids, VerdictOf(r)); }
    else if r.SubmitReq? { SubmitStatusOnly(weekOf, db, r); }
    else { UnlockStatusOnly(weekOf, db, r); }
    StatusOnlyKeepsKeys(db.entries, db.nextId, Step(weekOf, db, r).entries);
  }

  lemma WritesKeepKeys(weekOf: WeekOf, db: Db, r: Request)
    requires r.CreateReq? || r.RemoveReq? || r.EditReq?
    ensures KeysStay(db.entries, db.nextId, Step(weekOf, db, r).entries)
  {
    if r.EditReq? { EditShape(weekOf, db, r.user, r.id, r.patch, r.canSee, r.now); }
  }

  lemma RequestKeepsKeys(weekOf: WeekOf, db: Db, r: Request)
    requires Struct(db)
    ensures KeysStay(db.entries, db.nextId, Step(weekOf, db, r).entries)
  {
    if r.StartReq? || r.SwitchReq? || r.StopReq? || r.CleanupReq? { TimersKeepKeys(weekOf, db, r); }
    else if r.CreateReq? || r.RemoveReq? || r.EditReq? { WritesKeepKeys(weekOf, db, r); }
    else { StatusRequestsKeepKeys(weekOf, db, r); }
  }

  lemma CommitKeepsKeys(weekOf: WeekOf, db: Db, user: UserId, key: string, body: Body, seen: set<EntryId>, now: Instant)
    ensures KeysStay(db.entries, db.nextId, CommitTimer(weekOf, db, user, key, body, seen, now).db.entries)
  {
  }

  lemma WriteKeepsKeys(weekOf: WeekOf, db: Db, user: UserId, work: Work, now: Instant)
    ensures KeysStay(db.entries, db.nextId, WriteNow(weekOf, db, user, work, now).db.entries)
  {
  }

  lemma EventKeepsKeys(weekOf: WeekOf, w: World, ev: Event)
    requires Struct(w.db)
    ensures KeysStay(w.db.entries, w.db.nextId, Next(weekOf, w, ev).db.entries)
  {
    if Enabled(w, ev) {
      match ev {
        case Commit(c) =>
          var call := w.calls[c];
          CommitKeepsKeys(weekOf, w.db, call.user, call.work.key, call.work.body, call.pc.running, call.pc.at);
        case Write(c, now) => WriteKeepsKeys(weekOf, w.db, w.calls[c].user, w.calls[c].work, now);
        case Whole(r) => RequestKeepsKeys(weekOf, w.db, r);
        case _ =>
      }
    }
  }

  lemma RequestKeepsIds(weekOf: WeekOf, db: Db, r: Request)
    ensures db.nextId <= Step(weekOf, db, r).nextId
  {
  }

  lemma EventKeepsIds(weekOf: WeekOf, w: World, ev: Event)
    ensures w.db.nextId <= Next(weekOf, w, ev).db.nextId
  {
    if ev.Whole? { RequestKeepsIds(weekOf, w.db, ev.request); }
  }

  lemma {:induction false} KeysStayAlong(weekOf: WeekOf, w: World, evs: seq<Event>)
    requires Struct(w.db)
    ensures w.db.nextId <= After(weekOf, w, evs).db.nextId
    ensures KeysStay(w.db.entries, w.db.nextId, After(weekOf, w, evs).db.entries)
  {
    if evs != [] {
      var before := After(weekOf, w, evs[..|evs| - 1]);
      KeysStayAlong(weekOf, w, evs[..|evs| - 1]);
      EventsKeepStruct(weekOf, w, evs[..|evs| - 1]);
      EventKeepsKeys(weekOf, before, evs[|evs| - 1]);
      EventKeepsIds(weekOf, before, evs[|evs| - 1]);
    }
  }

  // --- after a crash -----------------------------------------------------------------------

  lemma UsedKeyAborts(weekOf: WeekOf, w: World, d: CallId, id: EntryId)
    requires Enabled(w, Commit(d)) && Struct(w.db)
    requires id in w.db.entries && w.db.entries[id].user == w.calls[d].user
        && w.db.entries[id].key == Some(w.calls[d].work.key)
    ensures var after := Next(weekOf, w, Commit(d)); after.db == w.db && after.calls[d].pc.Aborted?
  {
    var call := w.calls[d];
    var stopped := StopSeen(w.db.entries, call.pc.running, call.pc.at);
    var entries := stopped[w.db.nextId := NewTimer(call.user, call.work.key, call.work.body, call.pc.at)];
    assert id in entries && entries[id].key == entries[w.db.nextId].key
      && entries[id].user == entries[w.db.nextId].user;
  }

  /** A run in which call `c` commits and then crashes before it can store, and anything else happens. */
  function CrashRun(before: seq<Event>, c: CallId, later: seq<Event>): seq<Event> {
    before + ([Commit(c)] + ([Crash(c)] + later))
  }

  lemma CrashRunIs(weekOf: WeekOf, before: seq<Event>, c: CallId, later: seq<Event>)
    ensures var committed := Next(weekOf, After(weekOf, START, before), Commit(c));
      After(weekOf, START, CrashRun(before, c, later)) == After(weekOf, committed, [Crash(c)] + later)
  {
    AfterJoin(weekOf, START, before, [Commit(c)] + ([Crash(c)] + later));
    AfterJoin(weekOf, After(weekOf, START, before), [Commit(c)], [Crash(c)] + later);
    assert [Commit(c)][..0] == [];
  }

  /** After a crash between commit and store, no retry with the same key makes a second entry: while the entry that was
      committed stands, a retry commits nothing and is refused. */
  lemma RetryAfterCrash(weekOf: WeekOf, before: seq<Event>, c: CallId, later: seq<Event>, d: CallId)
    requires var w := After(weekOf, START, before);
      Enabled(w, Commit(c)) && Next(weekOf, w, Commit(c)).calls[c].pc.Committed?
    requires var w, end := After(weekOf, START, before), After(weekOf, START, CrashRun(before, c, later));
      Enabled(end, Commit(d)) && end.calls[d].user == w.calls[c].user && end.calls[d].work.key == w.calls[c].work.key
    ensures var id := After(weekOf, START, before).db.nextId;
      var end := After(weekOf, START, CrashRun(before, c, later));
      id in end.db.entries ==>
        Next(weekOf, end, Commit(d)).db == end.db && Next(weekOf, end, Commit(d)).calls[d].pc.Aborted?
  {
    var w, end := After(weekOf, START, before), After(weekOf, START, CrashRun(before, c, later));
    var committed := Next(weekOf, w, Commit(c));
    CrashRunIs(weekOf, before, c, later);
    EventsKeepStruct(weekOf, START, before);
    EventKeepsStruct(weekOf, w, Commit(c));
    KeysStayAlong(weekOf, committed, [Crash(c)] + later);
    EventsKeepStruct(weekOf, START, CrashRun(before, c, later));
    var id := w.db.nextId;
    if id in end.db.entries { UsedKeyAborts(weekOf, end, d, id); }
  }

  // --- a stop that crashes -----------------------------------------------------------------

  /** A stop has ended the user's timer and dies before it stores its reply. */
  function StopDies(w: World, user: UserId, notes: Option<string>, now: Instant): World {
    w.(db := w.db.(entries := StopRunning(w.db.entries, user, notes, now)))
  }

  lemma DiedIs(w: World, user: UserId, notes: Option<string>, now: Instant)
    requires Struct(w.db) && Constraints(StopRunning(w.db.entries, user, notes, now))
    ensures var died := StopDies(w, user, notes, now).db;
      && Struct(died)
      && forall id :: id in died.entries && died.entries[id].user == user ==> !died.entries[id].status.Running?
  {
  }

  /** The retry of a stop that died after its UPDATE never gets the reply the first would have given. Unless the key
      has been stored in between, it is told that no timer runs if none of the user's does by then; otherwise it ends
      one that was started since. */
  lemma RetriedStop(weekOf: WeekOf, before: seq<Event>, user: UserId, key: string, notes: Option<string>, now: Instant,
                    later: seq<Event>, again: Instant)
    requires Constraints(StopRunning(After(weekOf, START, before).db.entries, user, notes, now))
    requires var end := After(weekOf, StopDies(After(weekOf, START, before), user, notes, now), later).db;
      LookupKey(end.cache, user, key, StopBody(notes)).Miss?
      && StopTimer(end, user, Some(key), notes, again).outcome.Replied?
    ensures var w := After(weekOf, START, before);
      var end := After(weekOf, StopDies(w, user, notes, now), later).db;
      var reply := StopTimer(end, user, Some(key), notes, again).outcome.reply;
      && (reply.NoTimer? <==> RunningIds(end.entries, user) == {})
      && (reply.Row? ==> w.db.nextId <= reply.id && reply.id in RunningIds(end.entries, user))
  {
    var w := After(weekOf, START, before);
    EventsKeepStruct(weekOf, START, before);
    DiedIs(w, user, notes, now);
    KeysStayAlong(weekOf, StopDies(w, user, notes, now), later);
    ReplyIs(After(weekOf, StopDies(w, user, notes, now), later).db, user, key, notes, again);
  }

  lemma ReplyIs(db: Db, user: UserId, key: string, notes: Option<string>, now: Instant)
    requires LookupKey(db.cache, user, key, StopBody(notes)).Miss?
    requires StopTimer(db, user, Some(key), notes, now).outcome.Replied?
    ensures var reply := StopTimer(db, user, Some(key), notes, now).outcome.reply;
      if RunningIds(db.entries, user) == {} then reply == NoTimer
      else reply.Row? && reply.id in RunningIds(db.entries, user)
  {
    if id :| id in RunningIds(db.entries, user) {
      assert db.entries[id].user == user && db.entries[id].status.Running?;
    }
    if id :| id in db.entries && db.entries[id].user == user && db.entries[id].status.Running? {
      assert id in RunningIds(db.entries, user);
    }
  }

  // --- after an answer ---------------------------------------------------------------------

  predicate CacheGrows(a: map<CacheKey, Cached>, b: map<CacheKey, Cached>) {
    forall k :: k in a ==> k in b && b[k] == a[k]
  }

  lemma RequestGrowsCache(weekOf: WeekOf, db: Db, r: Request)
    ensures CacheGrows(db.cache, Step(weekOf, db, r).cache)
  {
    if r.StartReq? || r.SwitchReq? { }
    else if r.StopReq? { }
    else { OthersKeepCache(weekOf, db, r); }
  }

  lemma OthersKeepCache(weekOf: WeekOf, db: Db, r: Request)
    requires !r.StartReq? && !r.SwitchReq? && !r.StopReq?
    ensures Step(weekOf, db, r).cache == db.cache
  {
  }

  lemma EventGrowsCache(weekOf: WeekOf, w: World, ev: Event)
    ensures CacheGrows(w.db.cache, Next(weekOf, w, ev).db.cache)
  {
    if ev.Whole? { RequestGrowsCache(weekOf, w.db, ev.request); }
  }

  lemma {:induction false} CacheGrowsAlong(weekOf: WeekOf, w: World, evs: seq<Event>)
    ensures CacheGrows(w.db.cache, After(weekOf, w, evs).db.cache)
  {
    if evs != [] {
      CacheGrowsAlong(weekOf, w, evs[..|evs| - 1]);
      EventGrowsCache(weekOf, After(weekOf, w, evs[..|evs| - 1]), evs[|evs| - 1]);
    }
  }

  /** Once a reply is stored under a key, then whatever happens in between, every later request with that key
      gets that reply if its body is the same, and a conflict if not; neither touches a table. */
  lemma ReplayIsStable(weekOf: WeekOf, w: World, evs: seq<Event>, c: CallId)
    requires Enabled(After(weekOf, w, evs), LookUp(c))
    requires var call := After(weekOf, w, evs).calls[c]; CacheKey(call.user, call.work.key) in w.db.cache
    ensures var after := After(weekOf, w, evs);
      var call := after.calls[c];
      var cached := w.db.cache[CacheKey(call.user, call.work.key)];
      Next(weekOf, after, LookUp(c))
        == Moved(after, c, after.db, if cached.body == StartBody(call.work.body) then Finished(cached.reply)
                                     else Aborted(IdempotencyConflict))
  {
    CacheGrowsAlong(weekOf, w, evs);
  }

  /** Replies not yet stored are for different entries, which no stored start reply is for. */
  predicate OwnReplies(w: World) {
    && (forall c :: c in w.calls && w.calls[c].pc.Committed? ==>
          w.calls[c].pc.reply.Row? && w.calls[c].pc.reply.id < w.db.nextId)
    && (forall c, d ::
          c in w.calls && d in w.calls && c != d && w.calls[c].pc.Committed? && w.calls[d].pc.Committed? ==>
          w.calls[c].pc.reply != w.calls[d].pc.reply)
    && (forall k :: k in w.db.cache && w.db.cache[k].body.StartBody? ==>
          w.db.cache[k].reply.Row? && w.db.cache[k].reply.id < w.db.nextId)
    && (forall k, c :: k in w.db.cache && w.db.cache[k].body.StartBody? && c in w.calls && w.calls[c].pc.Committed? ==>
          w.calls[c].pc.reply != w.db.cache[k].reply)
  }

  /** What a request can add to the cache. */
  lemma RequestCaches(weekOf: WeekOf, db: Db, r: Request)
    ensures var after := Step(weekOf, db, r);
      && db.nextId <= after.nextId
      && forall k :: k in after.cache && after.cache[k].body.StartBody? ==>
           || (k in db.cache && after.cache[k] == db.cache[k])
           || (after.cache[k].reply.Row? && after.cache[k].reply.id == db.nextId < after.nextId)
  {
    if r.StartReq? || r.SwitchReq? { }
    else if r.StopReq? { }
    else { OthersKeepCache(weekOf, db, r); }
  }

  lemma WholeKeepsOwn(weekOf: WeekOf, w: World, r: Request)
    requires OwnReplies(w)
    ensures OwnReplies(w.(db := Step(weekOf, w.db, r)))
  {
    RequestCaches(weekOf, w.db, r);
  }

  /** Moving on one call's counter, the cache and next id as they were. */
  lemma MoveKeepsOwn(w: World, c: CallId, db: Db, pc: Pc)
    requires OwnReplies(w) && c in w.calls && db.cache == w.db.cache && w.db.nextId <= db.nextId
    requires pc.Committed? ==> pc.reply.Row? && pc.reply.id == w.db.nextId < db.nextId
    ensures OwnReplies(Moved(w, c, db, pc))
  {
  }

  lemma StoreKeepsOwn(weekOf: WeekOf, w: World, c: CallId)
    requires OwnReplies(w) && Enabled(w, Store(c))
    ensures OwnReplies(Next(weekOf, w, Store(c)))
  {
  }

  /** The other events move one call on. */
  lemma EventMoves(weekOf: WeekOf, w: World, ev: Event)
    requires Enabled(w, ev) && !ev.Arrive? && !ev.Store? && !ev.Whole?
    ensures ev.c in w.calls && ev.c in Next(weekOf, w, ev).calls
    ensures var after := Next(weekOf, w, ev);
      && after == Moved(w, ev.c, after.db, after.calls[ev.c].pc)
      && after.db.cache == w.db.cache && w.db.nextId <= after.db.nextId
      && (after.calls[ev.c].pc.Committed? ==>
            after.calls[ev.c].pc.reply.Row? && after.calls[ev.c].pc.reply.id == w.db.nextId < after.db.nextId)
  {
  }

  lemma EventKeepsOwn(weekOf: WeekOf, w: World, ev: Event)
    requires OwnReplies(w)
    ensures OwnReplies(Next(weekOf, w, ev))
  {
    if Enabled(w, ev) {
      match ev {
        case Arrive(_, _, _) =>
        case Store(c) => StoreKeepsOwn(weekOf, w, c);
        case Whole(r) => WholeKeepsOwn(weekOf, w, r);
        case _ =>
          var after := Next(weekOf, w, ev);
          EventMoves(weekOf, w, ev);
          MoveKeepsOwn(w, ev.c, after.db, after.calls[ev.c].pc);
      }
    }
  }

  lemma {:induction false} EventsKeepOwn(weekOf: WeekOf, evs: seq<Event>)
    ensures OwnReplies(After(weekOf, START, evs))
  {
    if evs != [] {
      EventsKeepOwn(weekOf, evs[..|evs| - 1]);
      EventKeepsOwn(weekOf, After(weekOf, START, evs[..|evs| - 1]), evs[|evs| - 1]);
    }
  }

  /** A finished call's own reply is what every later request with its key and body gets, whatever happens in between,
      exactly if no row stood under the key when the call came to store. */
  lemma OwnReplyReplaysIff(weekOf: WeekOf, evs: seq<Event>, c: CallId, later: seq<Event>, d: CallId)
    requires Enabled(After(weekOf, START, evs), Store(c))
    requires var w := After(weekOf, START, evs);
      var end := After(weekOf, Next(weekOf, w, Store(c)), later);
      Enabled(end, LookUp(d)) && end.calls[d].user == w.calls[c].user && end.calls[d].work == w.calls[c].work
    ensures
      var w := After(weekOf, START, evs);
      var end := After(weekOf, Next(weekOf, w, Store(c)), later);
      var unused := CacheKey(w.calls[c].user, w.calls[c].work.key) !in w.db.cache;
      unused <==> Next(weekOf, end, LookUp(d)).calls[d].pc == Finished(w.calls[c].pc.reply)
  {
    EventsKeepOwn(weekOf, evs);
    var w := After(weekOf, START, evs);
    ReplayIsStable(weekOf, Next(weekOf, w, Store(c)), later, d);
  }

  /** The other way is real: a stop with the same key that comes between commit and store keeps the key, and every
      replay of the finished start is a conflict. */
  lemma StopTakesKey(weekOf: WeekOf, evs: seq<Event>, c: CallId, notes: Option<string>, now: Instant,
                     later: seq<Event>, d: CallId)
    requires var w := After(weekOf, START, evs);
      && Enabled(w, Store(c)) && CacheKey(w.calls[c].user, w.calls[c].work.key) !in w.db.cache
      && StopTimer(w.db, w.calls[c].user, Some(w.calls[c].work.key), notes, now).outcome.Replied?
    requires var w := After(weekOf, START, evs);
      var stopped := Next(weekOf, w, Whole(StopReq(w.calls[c].user, Some(w.calls[c].work.key), notes, now)));
      var end := After(weekOf, Next(weekOf, stopped, Store(c)), later);
      Enabled(end, LookUp(d)) && end.calls[d].user == w.calls[c].user && end.calls[d].work == w.calls[c].work
    ensures var w := After(weekOf, START, evs);
      var stopped := Next(weekOf, w, Whole(StopReq(w.calls[c].user, Some(w.calls[c].work.key), notes, now)));
      var end := After(weekOf, Next(weekOf, stopped, Store(c)), later);
      Next(weekOf, end, LookUp(d)).calls[d].pc == Aborted(IdempotencyConflict)
  {
    var w := After(weekOf, START, evs);
    var stopped := Next(weekOf, w, Whole(StopReq(w.calls[c].user, Some(w.calls[c].work.key), notes, now)));
    ReplayIsStable(weekOf, Next(weekOf, stopped, Store(c)), later, d);
  }
}
