/** The two approval stages, statement by statement: who takes what through which stage, and what the stage-2 read of
    the stage-1 actor can see. */
module ApprovalRaces {
  import opened Tables
  import opened Requests
  import opened LockSoundness
  import opened TwoStage
  import opened Statements
  import I = Interleaving

  // --- what an event does to the stages of an entry ----------------------------------------------

  /** The event takes the entry through stage 1. */
  predicate Promotes(w: World, ev: Event, id: EntryId) {
    && Updates(w, ev) && Approves1(w.reviews[ev.c]) && OnEntry(w.reviews[ev.c], id)
    && id in EntriesOf(w) && EntriesOf(w)[id].status == w.reviews[ev.c].a.fromStatus
  }

  /** The event adds a stage-1 approval row to the entry. */
  predicate Rows1(w: World, ev: Event, id: EntryId) {
    Logs(w, ev) && Approves1(w.reviews[ev.c]) && OnEntry(w.reviews[ev.c], id) && id in EntriesOf(w)
  }

  /** The event takes the entry through stage 2. */
  predicate Finalizes(w: World, ev: Event, id: EntryId) {
    && Updates(w, ev) && w.reviews[ev.c].a.toStatus.FinalApproved? && OnEntry(w.reviews[ev.c], id)
    && id in EntriesOf(w) && EntriesOf(w)[id].status == w.reviews[ev.c].a.fromStatus
  }

  lemma BaseMoves(weekOf: WeekOf, w: I.World, ev: I.Event)
    requires Struct(w.db) && !(ev.Whole? && Recomputes(ev.request))
    ensures OrdinaryMoves(w.db.entries, I.Next(weekOf, w, ev).db.entries)
  {
    assert w.db.nextId !in w.db.entries;
    if I.Enabled(w, ev) {
      match ev {
        case Commit(c) =>
          var call := w.calls[c];
          TimerMoves(weekOf, w.db, call.user, call.work.key, call.work.body, call.pc.running, call.pc.at);
        case Write(c, now) => WriteMoves(weekOf, w.db, w.calls[c].user, w.calls[c].work, now);
        case Whole(r) => OrdinaryStep(weekOf, w.db, r);
        case _ =>
      }
    }
  }

  lemma TimerMoves(weekOf: WeekOf, db: Db, user: UserId, key: string, body: Body, seen: set<EntryId>, now: Instant)
    requires db.nextId !in db.entries
    ensures OrdinaryMoves(db.entries, I.CommitTimer(weekOf, db, user, key, body, seen, now).db.entries)
  {
    StopSeenMoves(db.entries, seen, now);
    NewTimerMoves(db.entries, I.StopSeen(db.entries, seen, now), db.nextId, NewTimer(user, key, body, now));
  }

  lemma StopSeenMoves(a: Entries, seen: set<EntryId>, now: Instant)
    ensures OrdinaryMoves(a, I.StopSeen(a, seen, now))
  {
  }

  lemma NewTimerMoves(a: Entries, b: Entries, id: EntryId, e: Entry)
    requires OrdinaryMoves(a, b) && id !in a && e.status.Running? && e.log == []
    ensures OrdinaryMoves(a, a) && OrdinaryMoves(a, b[id := e])
  {
  }

  lemma WriteMoves(weekOf: WeekOf, db: Db, user: UserId, work: I.Work, now: Instant)
    requires db.nextId !in db.entries
    ensures OrdinaryMoves(db.entries, I.WriteNow(weekOf, db, user, work, now).db.entries)
  {
  }

  /** A transaction takes nothing past stage 1. */
  lemma TxMoves(weekOf: WeekOf, a: Entries, r: Request, k: PeriodKey, ids: set<EntryId>)
    requires r.SubmitReq? || r.UnlockWeekReq?
    ensures OrdinaryMoves(a, TxEntries(weekOf, a, r, k, ids))
  {
    forall id | id in a
      ensures OrdinaryMove(a[id], TxEntries(weekOf, a, r, k, ids)[id])
    {
      AppendedRow(a[id].log, Transition(Draft, Status.Submitted, if r.SubmitReq? then r.user else 0, None));
      if r.UnlockWeekReq? { AppendedRow(a[id].log, Transition(a[id].status, Draft, r.actor, Some(r.reason))); }
    }
  }

  /** What the event does to an entry that it neither takes through a stage nor logs a stage-1 approval of. */
  predicate MovesAre(w: World, ev: Event, a: Entries, b: Entries, id: EntryId) {
    && (id in b && PastStage1(b[id].status) ==> (id in a && PastStage1(a[id].status)) || Promotes(w, ev, id))
    && (id in b && b[id].status.FinalApproved? ==> (id in a && a[id].status.FinalApproved?) || Finalizes(w, ev, id))
    && (Rows1(w, ev, id) ==> id in b && Stage1Actor(b[id].log) == Some(w.reviews[ev.c].a.actor))
    && (id in a && id in b && !Rows1(w, ev, id) ==> Stage1Actor(b[id].log) == Stage1Actor(a[id].log))
    && (id !in a && id in b ==> Stage1Actor(b[id].log) == None)
    && (Promotes(w, ev, id) ==> id in b && b[id].status.ManagerApproved?)
  }

  lemma OrdinaryIs(w: World, ev: Event, a: Entries, b: Entries, id: EntryId)
    requires OrdinaryMoves(a, b) && !ev.Update? && !ev.Log?
    ensures MovesAre(w, ev, a, b, id)
  {
  }

  lemma UpdateMoves(w: World, c: I.CallId, id: EntryId)
    requires Updates(w, Update(c)) && Job(w.reviews[c].a)
    ensures var r := w.reviews[c];
      MovesAre(w, Update(c), EntriesOf(w), UpdateOne(EntriesOf(w), r.a, r.ids[r.at]), id)
  {
  }

  lemma LogMoves(w: World, c: I.CallId, id: EntryId)
    requires Logs(w, Log(c)) && w.reviews[c].ids[w.reviews[c].at] in EntriesOf(w)
    ensures var r := w.reviews[c];
      MovesAre(w, Log(c), EntriesOf(w), LogOne(EntriesOf(w), r.a, r.ids[r.at]), id)
  {
    var r := w.reviews[c];
    AppendedRow(EntriesOf(w)[r.ids[r.at]].log, Transition(r.a.fromStatus, r.a.toStatus, r.a.actor, r.a.reason));
  }

  /** One event and one entry: it is past stage 1 afterwards only if it was, or is promoted; it reaches final_approved
      only if it was there, or is finalized; its latest stage-1 row changes only by a new one. */
  lemma EventMoves(weekOf: WeekOf, w: World, ev: Event, id: EntryId)
    requires Sane(w)
    ensures MovesAre(w, ev, EntriesOf(w), EntriesOf(Next(weekOf, w, ev)), id)
  {
    if Enabled(weekOf, w, ev) {
      match ev {
        case Other(e) =>
          BaseMoves(weekOf, w.base, e);
          OrdinaryIs(w, ev, EntriesOf(w), I.Next(weekOf, w.base, e).db.entries, id);
        case Update(c) => UpdateMoves(w, c, id);
        case Log(c) => if w.reviews[c].ids[w.reviews[c].at] in EntriesOf(w) { LogMoves(w, c, id); }
        case Commit(t) =>
          TxMoves(weekOf, EntriesOf(w), w.txs[t].request, w.txs[t].week, w.txs[t].ids);
          OrdinaryIs(w, ev, EntriesOf(w), Committed(weekOf, w.base.db, w.txs[t]).entries, id);
        case _ =>
          SameEntries(weekOf, w, ev);
          SameMoves(w, ev, id);
      }
    }
  }

  lemma SameMoves(w: World, ev: Event, id: EntryId)
    requires !ev.Update? && !ev.Log?
    ensures MovesAre(w, ev, EntriesOf(w), EntriesOf(w), id)
  {
  }

  // --- the last move and the last row --------------------------------------------------------

  /** What stage 1 does to an entry: the UPDATE moves it, the INSERT records it. */
  datatype Act = Move | Record

  predicate Does(w: World, ev: Event, act: Act, id: EntryId) {
    match act
    case Move => Promotes(w, ev, id)
    case Record => Rows1(w, ev, id)
  }

  /** Whose act on the entry was the last. */
  ghost function LastBy(weekOf: WeekOf, evs: seq<Event>, act: Act, id: EntryId): Option<UserId> {
    if evs == [] then None
    else NextBy(After(weekOf, evs[..|evs| - 1]), evs[|evs| - 1], act, id, LastBy(weekOf, evs[..|evs| - 1], act, id))
  }

  function NextBy(w: World, ev: Event, act: Act, id: EntryId, last: Option<UserId>): Option<UserId> {
    if Does(w, ev, act, id) then Some(w.reviews[ev.c].a.actor) else last
  }

  /** Who last took the entry through stage 1, whatever the history rows say. */
  ghost function Mover(weekOf: WeekOf, evs: seq<Event>, id: EntryId): Option<UserId> {
    LastBy(weekOf, evs, Move, id)
  }

  /** Event `p` is such an act. */
  ghost predicate DoesAt(weekOf: WeekOf, evs: seq<Event>, act: Act, p: int, id: EntryId) {
    0 <= p < |evs| && Does(After(weekOf, evs[..p]), evs[p], act, id)
  }

  /** Event `p` is such an act, on behalf of `actor`. */
  ghost predicate DoneAt(weekOf: WeekOf, evs: seq<Event>, act: Act, p: int, actor: UserId, id: EntryId) {
    DoesAt(weekOf, evs, act, p, id) && After(weekOf, evs[..p]).reviews[evs[p].c].a.actor == actor
  }

  /** No later event is one. */
  ghost predicate NoneAfter(weekOf: WeekOf, evs: seq<Event>, act: Act, p: int, id: EntryId) {
    forall m :: p < m ==> !DoesAt(weekOf, evs, act, m, id)
  }

  /** The last event that is one is on behalf of `actor`. */
  ghost predicate LastOneBy(weekOf: WeekOf, evs: seq<Event>, act: Act, actor: UserId, id: EntryId) {
    exists p :: DoneAt(weekOf, evs, act, p, actor, id) && NoneAfter(weekOf, evs, act, p, id)
  }

  lemma JustDone(weekOf: WeekOf, evs: seq<Event>, act: Act, actor: UserId, id: EntryId)
    requires evs != [] && Does(After(weekOf, evs[..|evs| - 1]), evs[|evs| - 1], act, id)
    ensures LastOneBy(weekOf, evs, act, actor, id)
      <==> After(weekOf, evs[..|evs| - 1]).reviews[evs[|evs| - 1].c].a.actor == actor
  {
    var n := |evs| - 1;
    assert DoesAt(weekOf, evs, act, n, id);
    if After(weekOf, evs[..n]).reviews[evs[n].c].a.actor == actor {
      assert DoneAt(weekOf, evs, act, n, actor, id) && NoneAfter(weekOf, evs, act, n, id);
    }
    if p :| DoneAt(weekOf, evs, act, p, actor, id) && NoneAfter(weekOf, evs, act, p, id) { assert p >= n; }
  }

  lemma DoesAtFront(weekOf: WeekOf, evs: seq<Event>, act: Act, p: int, id: EntryId)
    requires evs != [] && p < |evs| - 1
    ensures DoesAt(weekOf, evs, act, p, id) <==> DoesAt(weekOf, evs[..|evs| - 1], act, p, id)
  {
    if 0 <= p { assert evs[..|evs| - 1][..p] == evs[..p]; }
  }

  lemma NotDone(weekOf: WeekOf, evs: seq<Event>, act: Act, p: int, actor: UserId, id: EntryId)
    requires evs != [] && !Does(After(weekOf, evs[..|evs| - 1]), evs[|evs| - 1], act, id)
    ensures var front := evs[..|evs| - 1];
      && (DoneAt(weekOf, evs, act, p, actor, id) <==> DoneAt(weekOf, front, act, p, actor, id))
      && (NoneAfter(weekOf, evs, act, p, id) <==> NoneAfter(weekOf, front, act, p, id))
  {
    var front := evs[..|evs| - 1];
    if 0 <= p < |front| { assert front[..p] == evs[..p]; }
    forall m ensures DoesAt(weekOf, evs, act, m, id) <==> DoesAt(weekOf, front, act, m, id) {
      if m < |front| { DoesAtFront(weekOf, evs, act, m, id); }
    }
  }

  lemma {:induction false} LastByIff(weekOf: WeekOf, evs: seq<Event>, act: Act, actor: UserId, id: EntryId)
    ensures LastBy(weekOf, evs, act, id) == Some(actor) <==> LastOneBy(weekOf, evs, act, actor, id)
  {
    if evs != [] {
      var front, n := evs[..|evs| - 1], |evs| - 1;
      LastByIff(weekOf, front, act, actor, id);
      if Does(After(weekOf, front), evs[n], act, id) {
        JustDone(weekOf, evs, act, actor, id);
      } else {
        if p :| DoneAt(weekOf, evs, act, p, actor, id) && NoneAfter(weekOf, evs, act, p, id) {
          NotDone(weekOf, evs, act, p, actor, id);
        }
        if p :| DoneAt(weekOf, front, act, p, actor, id) && NoneAfter(weekOf, front, act, p, id) {
          NotDone(weekOf, evs, act, p, actor, id);
          assert DoneAt(weekOf, evs, act, p, actor, id) && NoneAfter(weekOf, evs, act, p, id);
        }
      }
    }
  }

  /** What the stage-2 read finds is the last INSERT's actor; ids never come back, so a new entry has none. */
  lemma {:induction false} RowIs(weekOf: WeekOf, evs: seq<Event>, id: EntryId)
    ensures var w := After(weekOf, evs);
      && (id in EntriesOf(w) ==> Stage1Actor(EntriesOf(w)[id].log) == LastBy(weekOf, evs, Record, id))
      && (w.base.db.nextId <= id ==> LastBy(weekOf, evs, Record, id) == None)
  {
    if evs != [] {
      var w := After(weekOf, evs[..|evs| - 1]);
      RowIs(weekOf, evs[..|evs| - 1], id);
      AlwaysSane(weekOf, evs[..|evs| - 1]);
      EventMoves(weekOf, w, evs[|evs| - 1], id);
      EventKeepsIds(weekOf, w, evs[|evs| - 1]);
    }
  }

  /** The row that stage 2 goes by names an actor iff their stage-1 INSERT was the last. */
  lemma RowNamesIff(weekOf: WeekOf, evs: seq<Event>, actor: UserId, id: EntryId)
    requires id in EntriesOf(After(weekOf, evs))
    ensures Stage1Actor(EntriesOf(After(weekOf, evs))[id].log) == Some(actor)
      <==> LastOneBy(weekOf, evs, Record, actor, id)
  {
    RowIs(weekOf, evs, id);
    LastByIff(weekOf, evs, Record, actor, id);
  }

  /** So it fails to name the entry's last mover iff none of the mover's INSERTs has come, or each has another
      actor's after it. */
  lemma RowUntrueIff(weekOf: WeekOf, evs: seq<Event>, actor: UserId, id: EntryId)
    requires id in EntriesOf(After(weekOf, evs)) && Mover(weekOf, evs, id) == Some(actor)
    ensures Stage1Actor(EntriesOf(After(weekOf, evs))[id].log) != Mover(weekOf, evs, id) <==>
      forall p :: DoneAt(weekOf, evs, Record, p, actor, id) ==>
        exists q, other :: p < q && other != actor && DoneAt(weekOf, evs, Record, q, other, id)
  {
    RowNamesIff(weekOf, evs, actor, id);
    if LastOneBy(weekOf, evs, Record, actor, id) {
      var p :| DoneAt(weekOf, evs, Record, p, actor, id) && NoneAfter(weekOf, evs, Record, p, id);
      forall q, other | p < q ensures !DoneAt(weekOf, evs, Record, q, other, id) { }
    } else {
      forall p | DoneAt(weekOf, evs, Record, p, actor, id)
        ensures exists q, other :: p < q && other != actor && DoneAt(weekOf, evs, Record, q, other, id)
      {
        OthersLast(weekOf, evs, p, actor, id);
      }
    }
  }

  lemma {:induction false} LastExists(weekOf: WeekOf, evs: seq<Event>, act: Act, p: int, actor: UserId, id: EntryId)
    requires DoneAt(weekOf, evs, act, p, actor, id)
    ensures LastBy(weekOf, evs, act, id).Some?
  {
    var front := evs[..|evs| - 1];
    if !Does(After(weekOf, front), evs[|evs| - 1], act, id) {
      NotDone(weekOf, evs, act, p, actor, id);
      LastExists(weekOf, front, act, p, actor, id);
    }
  }

  lemma OthersLast(weekOf: WeekOf, evs: seq<Event>, p: int, actor: UserId, id: EntryId)
    requires DoneAt(weekOf, evs, Record, p, actor, id) && !LastOneBy(weekOf, evs, Record, actor, id)
    ensures exists q, other :: p < q && other != actor && DoneAt(weekOf, evs, Record, q, other, id)
  {
    LastExists(weekOf, evs, Record, p, actor, id);
    var other := LastBy(weekOf, evs, Record, id).value;
    LastByIff(weekOf, evs, Record, actor, id);
    LastByIff(weekOf, evs, Record, other, id);
    var q :| DoneAt(weekOf, evs, Record, q, other, id) && NoneAfter(weekOf, evs, Record, q, id);
    assert p < q;
  }

  // --- who finalizes their own -------------------------------------------------------------

  /** Call `c` is about to read the stage-1 actor of an entry it means to finalize. */
  predicate ReadsNext(w: World, c: I.CallId, id: EntryId) {
    && c in w.reviews && w.reviews[c].pc.Ready? && w.reviews[c].a.toStatus.FinalApproved? && Stage2(w.reviews[c])
    && OnEntry(w.reviews[c], id)
  }

  /** The stage-2 read is refused iff the reader's own stage-1 INSERT was the last. */
  lemma ReadRefusedIff(weekOf: WeekOf, evs: seq<Event>, c: I.CallId, id: EntryId)
    requires ReadsNext(After(weekOf, evs), c, id) && id in EntriesOf(After(weekOf, evs))
    ensures var w := After(weekOf, evs);
      var after := Next(weekOf, w, Select(c));
      && c in after.reviews
      && (after.reviews[c].pc == Refused(Forbidden) <==> LastOneBy(weekOf, evs, Record, w.reviews[c].a.actor, id))
      && (after.reviews[c].pc == Selected <==> !LastOneBy(weekOf, evs, Record, w.reviews[c].a.actor, id))
  {
    RowNamesIff(weekOf, evs, After(weekOf, evs).reviews[c].a.actor, id);
    SelectIs(weekOf, After(weekOf, evs), c);
  }

  /** From event `n` on, none of the call's own statements takes effect. */
  ghost predicate Waits(weekOf: WeekOf, evs: seq<Event>, c: I.CallId, n: int)
    requires 0 <= n
  {
    forall m :: n <= m < |evs| && CallOf(evs[m]) == Some(c) ==> !Enabled(weekOf, After(weekOf, evs[..m]), evs[m])
  }

  lemma WaitsFront(weekOf: WeekOf, evs: seq<Event>, c: I.CallId, n: nat)
    requires n < |evs|
    ensures var front := evs[..|evs| - 1];
      Waits(weekOf, evs, c, n) <==>
        && Waits(weekOf, front, c, n)
        && (CallOf(evs[|evs| - 1]) == Some(c) ==> !Enabled(weekOf, After(weekOf, front), evs[|evs| - 1]))
  {
    var front := evs[..|evs| - 1];
    forall m | 0 <= m < |front| ensures front[..m] == evs[..m] && front[m] == evs[m] { }
  }

  /** Other calls' events leave the call where it is, and bring no id back. */
  lemma {:induction false} CallWaits(weekOf: WeekOf, evs: seq<Event>, c: I.CallId, n: nat)
    requires n <= |evs| && c in After(weekOf, evs[..n]).reviews && Waits(weekOf, evs, c, n)
    ensures c in After(weekOf, evs).reviews && After(weekOf, evs).reviews[c] == After(weekOf, evs[..n]).reviews[c]
    ensures IdsStay(After(weekOf, evs[..n]).base.db, After(weekOf, evs).base.db)
  {
    if n == |evs| {
      assert evs[..n] == evs;
    } else {
      var front, ev := evs[..|evs| - 1], evs[|evs| - 1];
      assert front[..n] == evs[..n];
      WaitsFront(weekOf, evs, c, n);
      CallWaits(weekOf, front, c, n);
      AlwaysSane(weekOf, front);
      CallStays(weekOf, After(weekOf, front), ev, c);
      EventKeepsIds(weekOf, After(weekOf, front), ev);
    }
  }

  /** Event `n` is the read that the call's coming update of the entry rests on. */
  ghost predicate ReadAt(weekOf: WeekOf, evs: seq<Event>, c: I.CallId, id: EntryId, n: int) {
    && 0 <= n < |evs| && evs[n] == Select(c) && ReadsNext(After(weekOf, evs[..n]), c, id)
    && Waits(weekOf, evs, c, n + 1)
  }

  /** Call `c` is about to update the entry, after a stage-2 read. */
  predicate HasRead(w: World, c: I.CallId, id: EntryId) {
    && c in w.reviews && w.reviews[c].pc.Selected? && w.reviews[c].a.toStatus.FinalApproved? && Stage2(w.reviews[c])
    && OnEntry(w.reviews[c], id)
  }

  lemma ReadStep(weekOf: WeekOf, w: World, ev: Event, c: I.CallId, id: EntryId)
    requires HasRead(Next(weekOf, w, ev), c, id)
    ensures if HasRead(w, c, id) then CallOf(ev) == Some(c) ==> !Enabled(weekOf, w, ev)
            else ev == Select(c) && ReadsNext(w, c, id)
  {
  }

  lemma {:induction false} FindRead(weekOf: WeekOf, evs: seq<Event>, c: I.CallId, id: EntryId) returns (n: nat)
    requires HasRead(After(weekOf, evs), c, id)
    ensures ReadAt(weekOf, evs, c, id, n)
  {
    assert evs != [];
    var front, ev := evs[..|evs| - 1], evs[|evs| - 1];
    ReadStep(weekOf, After(weekOf, front), ev, c, id);
    if HasRead(After(weekOf, front), c, id) {
      n := FindRead(weekOf, front, c, id);
      assert front[..n] == evs[..n];
      WaitsFront(weekOf, evs, c, n + 1);
    } else {
      n := |evs| - 1;
    }
  }

  /** What the read has left behind: a call waiting to update if the row named someone else, or nobody. */
  lemma ReadLeaves(weekOf: WeekOf, evs: seq<Event>, c: I.CallId, id: EntryId, n: nat)
    requires ReadAt(weekOf, evs, c, id, n) && id in EntriesOf(After(weekOf, evs))
    ensures var was, w := After(weekOf, evs[..n]), After(weekOf, evs);
      && c in w.reviews && w.reviews[c].a == was.reviews[c].a && OnEntry(w.reviews[c], id)
      && (HasRead(w, c, id) <==> !LastOneBy(weekOf, evs[..n], Record, was.reviews[c].a.actor, id))
  {
    var was, actor := After(weekOf, evs[..n]), After(weekOf, evs[..n]).reviews[c].a.actor;
    assert evs[..n + 1] == evs[..n] + [Select(c)];
    Then(weekOf, evs[..n], Select(c));
    SelectIs(weekOf, was, c);
    CallWaits(weekOf, evs, c, n + 1);
    if id in EntriesOf(was) {
      RowNamesIff(weekOf, evs[..n], actor, id);
    } else {
      RowIs(weekOf, evs[..n], id);
      LastByIff(weekOf, evs[..n], Record, actor, id);
    }
  }

  /** The run ends with call `c` about to take the entry through stage 2, for whoever last took it through stage 1. */
  ghost predicate FinalizesOwn(weekOf: WeekOf, evs: seq<Event>, c: I.CallId, id: EntryId) {
    && Finalizes(After(weekOf, evs), Update(c), id)
    && Mover(weekOf, evs, id) == Some(After(weekOf, evs).reviews[c].a.actor)
  }

  /** Who finalizes what they took through stage 1, exactly. The call's update does iff the entry is then at stage 1,
      its actor's move was the last, and when they read the stage-1 actor their INSERT was not. */
  lemma FinalizesOwnIff(weekOf: WeekOf, evs: seq<Event>, c: I.CallId, id: EntryId)
    requires c in After(weekOf, evs).reviews
    ensures var w := After(weekOf, evs);
      var actor := w.reviews[c].a.actor;
      FinalizesOwn(weekOf, evs, c, id) <==>
        && id in EntriesOf(w) && EntriesOf(w)[id].status.ManagerApproved?
        && LastOneBy(weekOf, evs, Move, actor, id)
        && exists n :: ReadAt(weekOf, evs, c, id, n) && !LastOneBy(weekOf, evs[..n], Record, actor, id)
  {
    var w := After(weekOf, evs);
    var actor := w.reviews[c].a.actor;
    AlwaysSane(weekOf, evs);
    LastByIff(weekOf, evs, Move, actor, id);
    if Finalizes(w, Update(c), id) {
      var n := FindRead(weekOf, evs, c, id);
      ReadLeaves(weekOf, evs, c, id, n);
    }
    if id in EntriesOf(w) && EntriesOf(w)[id].status.ManagerApproved? {
      if n :| ReadAt(weekOf, evs, c, id, n) && !LastOneBy(weekOf, evs[..n], Record, actor, id) {
        ReadLeaves(weekOf, evs, c, id, n);
      }
    }
  }

  // --- taking turns ------------------------------------------------------------------------

  /** The call has taken the entry through stage 1 and not yet logged it. */
  predicate Pending(w: World, c: I.CallId, id: EntryId) {
    c in w.reviews && Approves1(w.reviews[c]) && w.reviews[c].pc.Updated? && OnEntry(w.reviews[c], id)
  }

  /** While one call is between taking the entry through stage 1 and logging it, no other is, and none is between
      reading its stage-1 actor and taking it through stage 2. */
  ghost predicate InTurn(w: World, id: EntryId) {
    forall c, d :: Pending(w, c, id) && (Pending(w, d, id) || HasRead(w, d, id)) ==> c == d
  }

  /** Approvals take turns on the entry, stage-1 approvals come to it only while it is submitted, and none dies
      with it unlogged. Other entries are free. */
  ghost predicate OrderlyEvent(weekOf: WeekOf, w: World, ev: Event, id: EntryId) {
    && InTurn(Next(weekOf, w, ev), id)
    && (Updates(w, ev) && Approves1(w.reviews[ev.c]) && OnEntry(w.reviews[ev.c], id) ==> Promotes(w, ev, id))
    && (ev.Die? ==> !Pending(w, ev.c, id))
  }

  ghost predicate Orderly(weekOf: WeekOf, evs: seq<Event>, id: EntryId) {
    evs == [] || (Orderly(weekOf, evs[..|evs| - 1], id)
      && OrderlyEvent(weekOf, After(weekOf, evs[..|evs| - 1]), evs[|evs| - 1], id))
  }

  /** Past stage 1, the latest row names the mover, or a pending call will. */
  ghost predicate Named(w: World, id: EntryId, mover: Option<UserId>) {
    id in EntriesOf(w) && PastStage1(EntriesOf(w)[id].status) ==>
      && mover.Some?
      && (Stage1Actor(EntriesOf(w)[id].log) == mover
          || exists c :: Pending(w, c, id) && mover == Some(w.reviews[c].a.actor))
  }

  ghost predicate PendingIsMover(w: World, id: EntryId, mover: Option<UserId>) {
    forall c :: Pending(w, c, id) ==> mover == Some(w.reviews[c].a.actor)
  }

  ghost predicate ReadersAreOthers(w: World, id: EntryId, mover: Option<UserId>) {
    id in EntriesOf(w) && PastStage1(EntriesOf(w)[id].status) ==>
      forall c :: HasRead(w, c, id) ==> mover != Some(w.reviews[c].a.actor)
  }

  /** How an event can change whether a call is pending, or has read. */
  predicate CallMoves(w: World, ev: Event, after: World, c: I.CallId, id: EntryId) {
    && (Pending(after, c, id) && !Pending(w, c, id) ==>
          Updates(w, ev) && ev == Update(c) && Approves1(w.reviews[c]) && OnEntry(w.reviews[c], id))
    && (Pending(w, c, id) && !Pending(after, c, id) ==>
          ev == Die(c) || (Rows1(w, ev, id) && ev == Log(c)) || id !in EntriesOf(w))
    && (HasRead(after, c, id) && !HasRead(w, c, id) ==>
          && ev == Select(c) && c in w.reviews && EntriesOf(after) == EntriesOf(w)
          && (id in EntriesOf(w) ==> Stage1Actor(EntriesOf(w)[id].log) != Some(w.reviews[c].a.actor)))
    && (c in w.reviews ==> c in after.reviews && after.reviews[c].a == w.reviews[c].a)
  }

  lemma BecomesPending(weekOf: WeekOf, w: World, ev: Event, c: I.CallId, id: EntryId)
    ensures Pending(Next(weekOf, w, ev), c, id) && !Pending(w, c, id) ==>
      Updates(w, ev) && ev == Update(c) && Approves1(w.reviews[c]) && OnEntry(w.reviews[c], id)
    ensures Promotes(w, ev, id) ==> Pending(Next(weekOf, w, ev), ev.c, id)
  {
  }

  lemma EventMovesCalls(weekOf: WeekOf, w: World, ev: Event, c: I.CallId, id: EntryId)
    ensures CallMoves(w, ev, Next(weekOf, w, ev), c, id)
    ensures Promotes(w, ev, id) ==> Pending(Next(weekOf, w, ev), ev.c, id)
  {
    BecomesPending(weekOf, w, ev, c, id);
    if HasRead(Next(weekOf, w, ev), c, id) { ReadStep(weekOf, w, ev, c, id); }
  }

  /** What one orderly event does, from the invariants' point of view. */
  ghost predicate OrderlyMove(w: World, ev: Event, after: World, id: EntryId) {
    && MovesAre(w, ev, EntriesOf(w), EntriesOf(after), id)
    && (forall c :: CallMoves(w, ev, after, c, id))
    && (Promotes(w, ev, id) ==> Pending(after, ev.c, id))
    && InTurn(after, id)
    && (Updates(w, ev) && Approves1(w.reviews[ev.c]) && OnEntry(w.reviews[ev.c], id) ==> Promotes(w, ev, id))
    && (ev.Die? ==> !Pending(w, ev.c, id))
  }

  lemma PendingStep(w: World, ev: Event, after: World, id: EntryId, mover: Option<UserId>)
    requires OrderlyMove(w, ev, after, id) && PendingIsMover(w, id, mover)
    ensures PendingIsMover(after, id, NextBy(w, ev, Move, id, mover))
  {
    forall c | Pending(after, c, id) ensures NextBy(w, ev, Move, id, mover) == Some(after.reviews[c].a.actor) {
      assert CallMoves(w, ev, after, c, id);
    }
  }

  lemma NamedStep(w: World, ev: Event, after: World, id: EntryId, mover: Option<UserId>)
    requires OrderlyMove(w, ev, after, id) && Named(w, id, mover) && PendingIsMover(w, id, mover)
    ensures Named(after, id, NextBy(w, ev, Move, id, mover))
  {
    if id in EntriesOf(after) && PastStage1(EntriesOf(after)[id].status) {
      if Promotes(w, ev, id) {
        assert CallMoves(w, ev, after, ev.c, id);
      } else if Rows1(w, ev, id) {
        assert Pending(w, ev.c, id);
      } else if Stage1Actor(EntriesOf(w)[id].log) != mover {
        var c :| Pending(w, c, id) && mover == Some(w.reviews[c].a.actor);
        assert CallMoves(w, ev, after, c, id);
      }
    }
  }

  lemma ReadersStep(w: World, ev: Event, after: World, id: EntryId, mover: Option<UserId>)
    requires OrderlyMove(w, ev, after, id) && Named(w, id, mover) && ReadersAreOthers(w, id, mover)
    ensures ReadersAreOthers(after, id, NextBy(w, ev, Move, id, mover))
  {
    if id in EntriesOf(after) && PastStage1(EntriesOf(after)[id].status) {
      forall c | HasRead(after, c, id) ensures NextBy(w, ev, Move, id, mover) != Some(after.reviews[c].a.actor) {
        assert CallMoves(w, ev, after, c, id);
        if !Promotes(w, ev, id) && !HasRead(w, c, id) && Stage1Actor(EntriesOf(w)[id].log) != mover {
          var d :| Pending(w, d, id) && mover == Some(w.reviews[d].a.actor);
          assert CallMoves(w, ev, after, d, id);
        }
      }
    }
  }

  lemma OrderlyMoves(weekOf: WeekOf, w: World, ev: Event, id: EntryId)
    requires Sane(w) && OrderlyEvent(weekOf, w, ev, id)
    ensures OrderlyMove(w, ev, Next(weekOf, w, ev), id)
  {
    EventMoves(weekOf, w, ev, id);
    forall c { EventMovesCalls(weekOf, w, ev, c, id); }
  }

  lemma {:induction false} TurnsName(weekOf: WeekOf, evs: seq<Event>, id: EntryId)
    requires Orderly(weekOf, evs, id)
    ensures var w, mover := After(weekOf, evs), Mover(weekOf, evs, id);
      Named(w, id, mover) && PendingIsMover(w, id, mover) && ReadersAreOthers(w, id, mover)
  {
    if evs != [] {
      var front, ev := evs[..|evs| - 1], evs[|evs| - 1];
      TurnsName(weekOf, front, id);
      AlwaysSane(weekOf, front);
      var w, mover := After(weekOf, front), Mover(weekOf, front, id);
      OrderlyMoves(weekOf, w, ev, id);
      PendingStep(w, ev, Next(weekOf, w, ev), id, mover);
      NamedStep(w, ev, Next(weekOf, w, ev), id, mover);
      ReadersStep(w, ev, Next(weekOf, w, ev), id, mover);
    }
  }

  /** Two-stage separation, statement by statement and entry by entry: as long as approvals take turns on this entry,
      come to it at stage 1 only while it is submitted, and do not die between its stage-1 update and its log, nobody
      finalizes it who took it through stage 1. */
  lemma TurnsSeparate(weekOf: WeekOf, evs: seq<Event>, ev: Event, id: EntryId)
    requires Orderly(weekOf, evs, id) && Finalizes(After(weekOf, evs), ev, id)
    ensures Mover(weekOf, evs, id).Some? && Mover(weekOf, evs, id) != Some(After(weekOf, evs).reviews[ev.c].a.actor)
  {
    TurnsName(weekOf, evs, id);
    AlwaysSane(weekOf, evs);
    assert HasRead(After(weekOf, evs), ev.c, id);
  }

  // --- both stages by one actor ------------------------------------------------------------------

  function ManagerJob(actor: UserId, id: EntryId, now: Instant): Review {
    Review(ManagerVerdict(actor, true, None, now), [id], 0, 0, {}, Ready)
  }

  function FinalJob(actor: UserId, id: EntryId, now: Instant): Review {
    Review(FinalVerdict(actor, true, None, now), [id], 0, 0, {}, Ready)
  }

  function BeginFinal(c: I.CallId, actor: UserId, id: EntryId, now: Instant): Event {
    Begin(c, FinalReq(actor, [id], true, None, now))
  }

  function BeginManager(c: I.CallId, actor: UserId, id: EntryId, now: Instant): Event {
    Begin(c, ManagerReq(actor, [id], true, None, now))
  }

  /** The run has come to `w`, and `mover` was the last to take the entry through stage 1. */
  ghost predicate At(weekOf: WeekOf, evs: seq<Event>, id: EntryId, w: World, mover: Option<UserId>) {
    After(weekOf, evs) == w && Mover(weekOf, evs, id) == mover
  }

  lemma Goes(weekOf: WeekOf, evs: seq<Event>, ev: Event, id: EntryId)
    ensures var w := After(weekOf, evs);
      At(weekOf, evs + [ev], id, Next(weekOf, w, ev), NextBy(w, ev, Move, id, Mover(weekOf, evs, id)))
  {
    assert (evs + [ev])[..|evs|] == evs;
  }

  lemma GoesBegin(weekOf: WeekOf, evs: seq<Event>, c: I.CallId, r: Request, id: EntryId)
    requires Enabled(weekOf, After(weekOf, evs), Begin(c, r))
    ensures At(weekOf, evs + [Begin(c, r)], id, WithCall(After(weekOf, evs), c, JobOf(r)), Mover(weekOf, evs, id))
  {
    Goes(weekOf, evs, Begin(c, r), id);
  }

  lemma GoesSelect(weekOf: WeekOf, evs: seq<Event>, c: I.CallId, id: EntryId)
    requires var w := After(weekOf, evs);
      ReadsNext(w, c, id) && id in EntriesOf(w) && !Blocked(w.reviews[c].a, EntriesOf(w)[id])
    ensures var w := After(weekOf, evs);
      At(weekOf, evs + [Select(c)], id, WithCall(w, c, w.reviews[c].(pc := Selected)), Mover(weekOf, evs, id))
  {
    Goes(weekOf, evs, Select(c), id);
  }

  lemma GoesMove(weekOf: WeekOf, evs: seq<Event>, d: I.CallId, id: EntryId)
    requires Promotes(After(weekOf, evs), Update(d), id)
    ensures var w := After(weekOf, evs);
      var r := w.reviews[d];
      At(weekOf, evs + [Update(d)], id, WithEntries(w, UpdateOne(EntriesOf(w), r.a, id), d, r.(pc := Updated)),
         Some(r.a.actor))
  {
    Goes(weekOf, evs, Update(d), id);
  }

  lemma GoesLog(weekOf: WeekOf, evs: seq<Event>, d: I.CallId, id: EntryId)
    requires Rows1(After(weekOf, evs), Log(d), id)
    ensures var w := After(weekOf, evs);
      var r := w.reviews[d];
      At(weekOf, evs + [Log(d)], id, WithEntries(w, LogOne(EntriesOf(w), r.a, id), d, r.(at := r.at + 1, pc := Ready)),
         Mover(weekOf, evs, id))
  {
    Goes(weekOf, evs, Log(d), id);
  }

  lemma GoesDie(weekOf: WeekOf, evs: seq<Event>, d: I.CallId, id: EntryId)
    requires d in After(weekOf, evs).reviews
    ensures var w := After(weekOf, evs);
      At(weekOf, evs + [Die(d)], id, WithCall(w, d, w.reviews[d].(pc := Died)), Mover(weekOf, evs, id))
  {
    Goes(weekOf, evs, Die(d), id);
  }

  function FinalReads(c: I.CallId, actor: UserId, id: EntryId, now: Instant): seq<Event> {
    [BeginFinal(c, actor, id, now)] + [Select(c)]
  }

  function ManagerMoves(d: I.CallId, actor: UserId, id: EntryId, now: Instant): seq<Event> {
    [BeginManager(d, actor, id, now)] + [Update(d)]
  }

  /** The call is through its read and will finalize for the actor. */
  predicate WillFinalize(w: World, c: I.CallId, actor: UserId, id: EntryId) {
    c in w.reviews && w.reviews[c] == FinalJob(actor, id, w.reviews[c].a.now).(pc := Selected)
  }

  /** The run goes on with nothing but call `c` and stage 1 of the entry changed. */
  ghost predicate OnlyCall(w: World, after: World, c: I.CallId) {
    forall d :: d != c ==>
      (d in after.reviews <==> d in w.reviews) && (d in w.reviews ==> after.reviews[d] == w.reviews[d])
  }

  lemma FinalReadsIs(weekOf: WeekOf, evs: seq<Event>, c: I.CallId, actor: UserId, id: EntryId, now: Instant)
    requires var w := After(weekOf, evs);
      c !in w.reviews && id in EntriesOf(w) && Stage1Actor(EntriesOf(w)[id].log) != Some(actor)
    ensures var w, after := After(weekOf, evs), After(weekOf, evs + FinalReads(c, actor, id, now));
      && WillFinalize(after, c, actor, id) && OnlyCall(w, after, c) && after.base == w.base
      && Mover(weekOf, evs + FinalReads(c, actor, id, now), id) == Mover(weekOf, evs, id)
  {
    var begun := evs + [BeginFinal(c, actor, id, now)];
    GoesBegin(weekOf, evs, c, FinalReq(actor, [id], true, None, now), id);
    GoesSelect(weekOf, begun, c, id);
    assert begun + [Select(c)] == evs + FinalReads(c, actor, id, now);
  }

  lemma ManagerMovesIs(weekOf: WeekOf, evs: seq<Event>, d: I.CallId, actor: UserId, id: EntryId, now: Instant)
    requires d !in After(weekOf, evs).reviews
    requires id in EntriesOf(After(weekOf, evs)) && EntriesOf(After(weekOf, evs))[id].status.Submitted?
    ensures var w := After(weekOf, evs);
      At(weekOf, evs + ManagerMoves(d, actor, id, now), id,
         WithEntries(w, UpdateOne(EntriesOf(w), ManagerVerdict(actor, true, None, now), id), d,
                     ManagerJob(actor, id, now).(pc := Updated)),
         Some(actor))
  {
    var begun := evs + [BeginManager(d, actor, id, now)];
    GoesBegin(weekOf, evs, d, ManagerReq(actor, [id], true, None, now), id);
    GoesMove(weekOf, begun, d, id);
    assert begun + [Update(d)] == evs + ManagerMoves(d, actor, id, now);
  }

  /** The entry is at stage 1, moved there last by `actor`; other calls than `d` are as they were. */
  ghost predicate Moved(weekOf: WeekOf, evs: seq<Event>, more: seq<Event>, d: I.CallId, actor: UserId, id: EntryId)
    requires id in EntriesOf(After(weekOf, evs))
  {
    var w, after := After(weekOf, evs), After(weekOf, evs + more);
    && Mover(weekOf, evs + more, id) == Some(actor) && OnlyCall(w, after, d)
    && id in EntriesOf(after) && EntriesOf(after)[id].status.ManagerApproved?
  }

  lemma ManagerLogs(weekOf: WeekOf, evs: seq<Event>, d: I.CallId, actor: UserId, id: EntryId, now: Instant)
    requires d !in After(weekOf, evs).reviews
    requires id in EntriesOf(After(weekOf, evs)) && EntriesOf(After(weekOf, evs))[id].status.Submitted?
    ensures Moved(weekOf, evs, ManagerMoves(d, actor, id, now) + [Log(d)], d, actor, id)
  {
    ManagerMovesIs(weekOf, evs, d, actor, id, now);
    GoesLog(weekOf, evs + ManagerMoves(d, actor, id, now), d, id);
    assert evs + ManagerMoves(d, actor, id, now) + [Log(d)] == evs + (ManagerMoves(d, actor, id, now) + [Log(d)]);
  }

  lemma ManagerDies(weekOf: WeekOf, evs: seq<Event>, d: I.CallId, actor: UserId, id: EntryId, now: Instant)
    requires d !in After(weekOf, evs).reviews
    requires id in EntriesOf(After(weekOf, evs)) && EntriesOf(After(weekOf, evs))[id].status.Submitted?
    ensures var more := ManagerMoves(d, actor, id, now) + [Die(d)];
      Moved(weekOf, evs, more, d, actor, id)
      && EntriesOf(After(weekOf, evs + more))[id].log == EntriesOf(After(weekOf, evs))[id].log
  {
    ManagerMovesIs(weekOf, evs, d, actor, id, now);
    GoesDie(weekOf, evs + ManagerMoves(d, actor, id, now), d, id);
    assert evs + ManagerMoves(d, actor, id, now) + [Die(d)] == evs + (ManagerMoves(d, actor, id, now) + [Die(d)]);
  }

  predicate Free(w: World, c: I.CallId, d: I.CallId, actor: UserId, id: EntryId) {
    && c != d && c !in w.reviews && d !in w.reviews
    && id in EntriesOf(w) && EntriesOf(w)[id].status.Submitted? && Stage1Actor(EntriesOf(w)[id].log) != Some(actor)
  }

  /** One actor's stage-2 read of a submitted entry, then their whole stage-1 approval: every stage-1 approval named a
      submitted entry, every row is true, and still they finalize their own. */
  function ReadFirst(c: I.CallId, d: I.CallId, actor: UserId, id: EntryId, now: Instant): seq<Event> {
    FinalReads(c, actor, id, now) + (ManagerMoves(d, actor, id, now) + [Log(d)])
  }

  /** A stage-1 approval that dies before its row is written leaves nothing for stage 2 to read. */
  function DieFirst(c: I.CallId, d: I.CallId, actor: UserId, id: EntryId, now: Instant): seq<Event> {
    ManagerMoves(d, actor, id, now) + [Die(d)] + FinalReads(c, actor, id, now)
  }

  lemma ReadFirstFinalizesOwn(weekOf: WeekOf, evs: seq<Event>, c: I.CallId, d: I.CallId, actor: UserId, id: EntryId,
                              now: Instant)
    requires Free(After(weekOf, evs), c, d, actor, id)
    ensures FinalizesOwn(weekOf, evs + ReadFirst(c, d, actor, id, now), c, id)
  {
    FinalReadsIs(weekOf, evs, c, actor, id, now);
    var read := evs + FinalReads(c, actor, id, now);
    ManagerLogs(weekOf, read, d, actor, id, now);
    assert read + (ManagerMoves(d, actor, id, now) + [Log(d)]) == evs + ReadFirst(c, d, actor, id, now);
  }

  lemma DieFirstFinalizesOwn(weekOf: WeekOf, evs: seq<Event>, c: I.CallId, d: I.CallId, actor: UserId, id: EntryId,
                             now: Instant)
    requires Free(After(weekOf, evs), c, d, actor, id)
    ensures FinalizesOwn(weekOf, evs + DieFirst(c, d, actor, id, now), c, id)
  {
    ManagerDies(weekOf, evs, d, actor, id, now);
    var died := evs + (ManagerMoves(d, actor, id, now) + [Die(d)]);
    FinalReadsIs(weekOf, died, c, actor, id, now);
    assert died + FinalReads(c, actor, id, now) == evs + DieFirst(c, d, actor, id, now);
  }
}
