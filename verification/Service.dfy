/** The request handlers, updating the tables in place. Each is proved against its function in `Requests`,
    whose properties the other modules prove. */
module Service {
  import opened Tables
  import opened Rollup
  import opened PeriodRows
  import opened Requests
  import opened Batches
  import opened LockSoundness

  datatype SkipReason = RunningTimer | AlreadySubmitted

  datatype Skip = Skip(id: EntryId, reason: SkipReason)

  predicate Distinct<T(==)>(s: seq<T>) {
    forall i, j :: 0 <= i < j < |s| ==> s[i] != s[j]
  }

  /** In order of start_at. */
  predicate InStartOrder(entries: Entries, ids: seq<EntryId>) {
    && (forall i :: 0 <= i < |ids| ==> ids[i] in entries)
    && (forall i, j :: 0 <= i < j < |ids| ==> entries[ids[i]].startAt <= entries[ids[j]].startAt)
  }

  function ToSet<T(==)>(s: seq<T>): set<T> {
    set x | x in s
  }

  lemma ToSetOneMore<T>(s: seq<T>, x: T)
    ensures ToSet(s + [x]) == ToSet(s) + {x}
  {
    forall y ensures y in s + [x] <==> y in s || y == x { }
  }

  // --- the two lists a submission answers with -----------------------------------------------

  /** The drafts among the candidates, in the same order. */
  function Drafts(entries: Entries, candidates: seq<EntryId>): seq<EntryId>
    requires forall i :: 0 <= i < |candidates| ==> candidates[i] in entries
  {
    if candidates == [] then []
    else
      var front, c := candidates[..|candidates| - 1], candidates[|candidates| - 1];
      Drafts(entries, front) + if entries[c].status.Draft? then [c] else []
  }

  /** The others, each with its reason; a rejected entry is reported as already submitted. */
  function Skips(entries: Entries, candidates: seq<EntryId>): seq<Skip>
    requires forall i :: 0 <= i < |candidates| ==> candidates[i] in entries
  {
    if candidates == [] then []
    else
      var front, c := candidates[..|candidates| - 1], candidates[|candidates| - 1];
      Skips(entries, front) +
        if entries[c].status.Draft? then []
        else [Skip(c, if entries[c].status.Running? then RunningTimer else AlreadySubmitted)]
  }

  function SkipIds(skips: seq<Skip>): seq<EntryId> {
    seq(|skips|, i requires 0 <= i < |skips| => skips[i].id)
  }

  /** Every candidate is in exactly one of the two lists, as often as among the candidates. */
  lemma {:induction false} SubmitListsPartition(entries: Entries, candidates: seq<EntryId>)
    requires forall i :: 0 <= i < |candidates| ==> candidates[i] in entries
    ensures multiset(Drafts(entries, candidates)) + multiset(SkipIds(Skips(entries, candidates)))
        == multiset(candidates)
    ensures forall id :: id in Drafts(entries, candidates) ==> id in entries && entries[id].status.Draft?
    ensures forall s :: s in Skips(entries, candidates) ==> s.id in entries && !entries[s.id].status.Draft?
    ensures forall s :: s in Skips(entries, candidates) ==> (s.reason.RunningTimer? <==> entries[s.id].status.Running?)
  {
    if candidates != [] {
      var front, c := candidates[..|candidates| - 1], candidates[|candidates| - 1];
      SubmitListsPartition(entries, front);
      assert candidates == front + [c];
      assert SkipIds(Skips(entries, candidates))
        == SkipIds(Skips(entries, front)) + if entries[c].status.Draft? then [] else [c];
    }
  }

  predicate Before(s: seq<EntryId>, x: EntryId, y: EntryId) {
    exists a, b :: 0 <= a < b < |s| && s[a] == x && s[b] == y
  }

  /** `part` lists candidates in the order they have there. */
  predicate KeepsOrder(part: seq<EntryId>, candidates: seq<EntryId>) {
    && (forall i :: 0 <= i < |part| ==> part[i] in candidates)
    && (forall i, j :: 0 <= i < j < |part| ==> Before(candidates, part[i], part[j]))
  }

  lemma OrderOneMore(part: seq<EntryId>, candidates: seq<EntryId>, c: EntryId)
    requires KeepsOrder(part, candidates)
    ensures KeepsOrder(part, candidates + [c]) && KeepsOrder(part + [c], candidates + [c])
  {
    var whole := candidates + [c];
    forall x, y | Before(candidates, x, y) ensures Before(whole, x, y) {
      var a, b :| 0 <= a < b < |candidates| && candidates[a] == x && candidates[b] == y;
      assert whole[a] == x && whole[b] == y;
    }
    forall x | x in candidates ensures Before(whole, x, c) {
      var a :| 0 <= a < |candidates| && candidates[a] == x;
      assert whole[a] == x && whole[|candidates|] == c;
    }
  }

  /** Both lists go in the order of the candidates. */
  lemma {:induction false} SubmitListsKeepOrder(entries: Entries, candidates: seq<EntryId>)
    requires forall i :: 0 <= i < |candidates| ==> candidates[i] in entries
    ensures KeepsOrder(Drafts(entries, candidates), candidates)
    ensures KeepsOrder(SkipIds(Skips(entries, candidates)), candidates)
  {
    if candidates != [] {
      var front, c := candidates[..|candidates| - 1], candidates[|candidates| - 1];
      SubmitListsKeepOrder(entries, front);
      OrderOneMore(Drafts(entries, front), front, c);
      OrderOneMore(SkipIds(Skips(entries, front)), front, c);
      assert candidates == front + [c];
      assert SkipIds(Skips(entries, candidates))
        == SkipIds(Skips(entries, front)) + if entries[c].status.Draft? then [] else [c];
    }
  }

  lemma FileOneMore(entries: Entries, done: set<EntryId>, c: EntryId, user: UserId, now: Instant)
    requires c in entries && c !in done
    ensures var before := SubmitEntries(entries, done, user, now);
      && c in before && before[c] == entries[c]
      && SubmitEntries(entries, done + {c}, user, now)
           == if entries[c].status.Draft? then before[c := MarkSubmitted(entries[c], user, now)] else before
  {
  }

  lemma ListOneMore(entries: Entries, candidates: seq<EntryId>, i: nat)
    requires i < |candidates| && forall j :: 0 <= j < |candidates| ==> candidates[j] in entries
    ensures var c := candidates[i];
      && Drafts(entries, candidates[..i + 1])
           == Drafts(entries, candidates[..i]) + (if entries[c].status.Draft? then [c] else [])
      && Skips(entries, candidates[..i + 1])
           == Skips(entries, candidates[..i])
              + if entries[c].status.Draft? then []
                else [Skip(c, if entries[c].status.Running? then RunningTimer else AlreadySubmitted)]
  {
    assert candidates[..i + 1][..i] == candidates[..i];
  }

  /** The loop of submit: file the drafts, note the rest. */
  method FileDrafts(entries: Entries, candidates: seq<EntryId>, user: UserId, now: Instant)
    returns (rows: Entries, submittedIds: seq<EntryId>, skipped: seq<Skip>)
    requires Distinct(candidates) && forall i :: 0 <= i < |candidates| ==> candidates[i] in entries
    ensures rows == SubmitEntries(entries, ToSet(candidates), user, now)
    ensures submittedIds == Drafts(entries, candidates) && skipped == Skips(entries, candidates)
  {
    rows, submittedIds, skipped := entries, [], [];
    for i := 0 to |candidates|
      invariant rows == SubmitEntries(entries, ToSet(candidates[..i]), user, now)
      invariant submittedIds == Drafts(entries, candidates[..i]) && skipped == Skips(entries, candidates[..i])
    {
      var c := candidates[i];
      NextCandidate(candidates, i, c);
      FileOneMore(entries, ToSet(candidates[..i]), c, user, now);
      ListOneMore(entries, candidates, i);
      if rows[c].status.Running? {
        skipped := skipped + [Skip(c, RunningTimer)];
        continue;
      }
      if !rows[c].status.Draft? {
        skipped := skipped + [Skip(c, AlreadySubmitted)];
        continue;
      }
      rows := rows[c := MarkSubmitted(rows[c], user, now)];
      submittedIds := submittedIds + [c];
    }
    assert candidates[..|candidates|] == candidates;
  }

  /** The loop of unlockWeek over the locked rows it selected. */
  method UnlockEach(entries: Entries, locked: seq<EntryId>, actor: UserId, reason: string, now: Instant)
    returns (rows: Entries)
    requires Distinct(locked) && forall i :: 0 <= i < |locked| ==> locked[i] in entries
    ensures rows == map id | id in entries ::
      if id in ToSet(locked) then Unlocked(entries[id], entries[id].status, actor, reason, now) else entries[id]
  {
    rows := entries;
    for i := 0 to |locked|
      invariant rows == map id | id in entries ::
        if id in ToSet(locked[..i]) then Unlocked(entries[id], entries[id].status, actor, reason, now) else entries[id]
    {
      NextCandidate(locked, i, locked[i]);
      rows := rows[locked[i] := Unlocked(rows[locked[i]], rows[locked[i]].status, actor, reason, now)];
    }
    assert locked[..|locked|] == locked;
  }

  lemma UnlockEachIs(weekOf: WeekOf, entries: Entries, k: PeriodKey, held: set<EntryId>, actor: UserId,
                     reason: string, now: Instant)
    requires held == set id | id in entries && KeyOf(weekOf, entries[id]) == k && LockedStatus(entries[id].status)
    ensures (map id | id in entries ::
              if id in held then Unlocked(entries[id], entries[id].status, actor, reason, now) else entries[id])
         == UnlockEntries(weekOf, entries, k, actor, reason, now)
  {
  }

  lemma NextCandidate(candidates: seq<EntryId>, i: nat, c: EntryId)
    requires i < |candidates| && Distinct(candidates) && c == candidates[i]
    ensures c !in ToSet(candidates[..i]) && ToSet(candidates[..i + 1]) == ToSet(candidates[..i]) + {c}
  {
    assert candidates[..i + 1] == candidates[..i] + [c];
    ToSetOneMore(candidates[..i], c);
  }

  lemma CountOneMore(rows: seq<CountRow>, row: CountRow)
    requires GroupedRows(rows) && !row.status.Running? && forall i :: 0 <= i < |rows| ==> rows[i].status != row.status
    ensures GroupedRows(rows + [row])
    ensures forall st: Status :: CountFor(rows + [row], st) == if st == row.status then row.n else CountFor(rows, st)
  {
    assert (rows + [row])[..|rows|] == rows;
  }

  /** The GROUP BY status query over a week's entries in the given statuses. */
  method CountByStatus(weekOf: WeekOf, entries: Entries, k: PeriodKey, statuses: seq<Status>)
    returns (rows: seq<CountRow>)
    requires Distinct(statuses) && Running !in statuses
    ensures GroupedRows(rows)
    ensures forall st: Status :: CountFor(rows, st) == if st in statuses then |WeekIds(weekOf, entries, k, st)| else 0
  {
    rows := [];
    for i := 0 to |statuses|
      invariant GroupedRows(rows)
      invariant forall j :: 0 <= j < |rows| ==> rows[j].status in statuses[..i]
      invariant forall st: Status :: CountFor(rows, st) == if st in statuses[..i] then |WeekIds(weekOf, entries, k, st)|
          else 0
    {
      var n := |WeekIds(weekOf, entries, k, statuses[i])|;
      assert statuses[..i + 1] == statuses[..i] + [statuses[i]];
      if n > 0 {
        CountOneMore(rows, CountRow(statuses[i], n));
        rows := rows + [CountRow(statuses[i], n)];
      }
    }
    assert statuses[..|statuses|] == statuses;
  }

  const COUNTED: seq<Status> := [Draft, Status.Submitted, ManagerApproved, FinalApproved, Rejected]

  lemma CountedIs()
    ensures Distinct(COUNTED) && forall st: Status :: st in COUNTED <==> !st.Running?
  {
    assert COUNTED[0] == Draft && COUNTED[1] == Status.Submitted && COUNTED[2] == ManagerApproved
      && COUNTED[3] == FinalApproved && COUNTED[4] == Rejected;
  }

  /** The first half of recomputePeriod: count the week's entries and decide. An empty week counts to open. */
  method DeriveStatus(weekOf: WeekOf, entries: Entries, k: PeriodKey) returns (status: PeriodStatus)
    ensures status == RollupOf(weekOf, entries, k)
  {
    CountedIs();
    var rows := CountByStatus(weekOf, entries, k, COUNTED);
    var tally, total := Tally(rows);
    WeekCountsRefineRule(weekOf, entries, k, tally);
    status := RollupCounts(tally, total);
  }

  /** A non-empty set of entries has an earliest one. */
  lemma {:induction false} EarliestExists(entries: Entries, ids: set<EntryId>)
    requires ids <= entries.Keys && ids != {}
    ensures exists x :: x in ids && forall y :: y in ids ==> entries[x].startAt <= entries[y].startAt
    decreases ids
  {
    var first :| first in ids;
    var rest := ids - {first};
    assert forall y :: y in ids ==> y == first || y in rest;
    if rest != {} {
      EarliestExists(entries, rest);
      var x :| x in rest && forall y :: y in rest ==> entries[x].startAt <= entries[y].startAt;
      var best := if entries[first].startAt <= entries[x].startAt then first else x;
      assert best in ids && forall y :: y in ids ==> entries[best].startAt <= entries[y].startAt;
    }
  }

  /** SELECT ... ORDER BY start_at over a set of entries. */
  method OrderByStart(entries: Entries, ids: set<EntryId>) returns (rows: seq<EntryId>)
    requires ids <= entries.Keys
    ensures Distinct(rows) && ToSet(rows) == ids && InStartOrder(entries, rows)
  {
    rows := [];
    var rest := ids;
    while rest != {}
      invariant Distinct(rows) && rest <= ids && ToSet(rows) == ids - rest
      invariant InStartOrder(entries, rows)
      invariant forall x, y :: x in rows && y in rest ==> entries[x].startAt <= entries[y].startAt
      decreases rest
    {
      EarliestExists(entries, rest);
      var x :| x in rest && forall y :: y in rest ==> entries[x].startAt <= entries[y].startAt;
      assert x !in rows by { assert x in rows ==> x in ToSet(rows); }
      ToSetOneMore(rows, x);
      rows := rows + [x];
      rest := rest - {x};
    }
  }

  /** The candidates in order of start, and the submit loop over them. */
  method FileCandidates(entries: Entries, ids: set<EntryId>, user: UserId, now: Instant)
    returns (rows: Entries, submittedIds: seq<EntryId>, skipped: seq<Skip>, ghost candidates: seq<EntryId>)
    requires ids <= entries.Keys
    ensures ToSet(candidates) == ids && Distinct(candidates) && InStartOrder(entries, candidates)
    ensures rows == SubmitEntries(entries, ids, user, now)
    ensures submittedIds == Drafts(entries, candidates) && skipped == Skips(entries, candidates)
  {
    var order := OrderByStart(entries, ids);
    candidates := order;
    assert forall i :: 0 <= i < |order| ==> order[i] in ToSet(order);
    rows, submittedIds, skipped := FileDrafts(entries, order, user, now);
  }


  class Timesheets {
    const weekOf: WeekOf
    var entries: Entries
    var periods: Periods
    var cache: map<CacheKey, Cached>
    var nextId: EntryId

    ghost function View(): Db
      reads this
    {
      Db(entries, periods, cache, nextId)
    }

    ghost predicate Valid()
      reads this
    {
      Struct(View())
    }

    constructor (weekOf: WeekOf)
      ensures Valid() && View() == EMPTY && this.weekOf == weekOf
    {
      this.weekOf := weekOf;
      entries, periods, cache, nextId := map[], map[], map[], 0;
    }

    // --- the lock oracle -------------------------------------------------------------------

    /** recomputePeriod: count, decide, and insert or update the stored row. */
    method RecomputePeriod(k: PeriodKey, now: Instant)
      modifies this`periods
      ensures periods == RecomputeMany(weekOf, entries, old(periods), {k}, now)
    {
      var newStatus := DeriveStatus(weekOf, entries, k);
      if k !in periods && newStatus.Open? { return; }
      periods := periods[k := if k in periods then UpdatedRow(periods[k], newStatus, now)
        else FirstRow(newStatus, now)];
    }

    /** recomputeAffectedPeriods: each distinct week of the listed entries, once. `visits` records the calls. */
    method RecomputeAffectedPeriods(ids: seq<EntryId>, now: Instant) returns (ghost visits: seq<PeriodKey>)
      modifies this`periods
      ensures periods == RecomputeMany(weekOf, entries, old(periods), AffectedWeeks(weekOf, entries, ids), now)
      ensures Distinct(visits) && ToSet(visits) == AffectedWeeks(weekOf, entries, ids)
    {
      var seen: set<PeriodKey> := {};
      visits := [];
      assert RecomputeMany(weekOf, entries, periods, {}, now) == periods;
      for i := 0 to |ids|
        invariant seen == AffectedWeeks(weekOf, entries, ids[..i])
        invariant periods == RecomputeMany(weekOf, entries, old(periods), seen, now)
        invariant Distinct(visits) && ToSet(visits) == seen
      {
        AffectedOneMore(weekOf, entries, ids, i);
        if ids[i] !in entries { continue; }
        var k := KeyOf(weekOf, entries[ids[i]]);
        if k in seen { continue; }
        RecomputeOneMore(weekOf, entries, old(periods), seen, k, now);
        assert k !in visits by { assert k in visits ==> k in ToSet(visits); }
        seen := seen + {k};
        RecomputePeriod(k, now);
        visits := visits + [k];
      }
      assert ids[..|ids|] == ids;
    }

    // --- timers ----------------------------------------------------------------------------

    method Start(user: UserId, key: Option<string>, body: Body, appNow: Instant, now: Instant)
      returns (outcome: Outcome)
      requires Valid()
      modifies this
      ensures Valid() && Result(View(), outcome) == StartTimer(weekOf, old(View()), user, key, body, appNow, now)
    {
      StructStart(weekOf, View(), user, key, body, appNow, now);
      if key.None? || key.value == "" { return Failed(ValidationFailed); }
      match LookupKey(cache, user, key.value, StartBody(body)) {
        case Hit(reply) => return Replied(reply);
        case Conflict => return Failed(IdempotencyConflict);
        case Miss =>
      }
      // one transaction: nothing is assigned before every guard has passed
      if !Writable(weekOf, periods, user, appNow) { return Failed(Error.PeriodLocked); }
      var rows := StopRunning(entries, user, None, now);
      if !Constraints(rows) { return Failed(DbFault); }
      if !Writable(weekOf, periods, user, now) { return Failed(Error.PeriodLocked); }
      var entry := NewTimer(user, key.value, body, now);
      rows := rows[nextId := entry];
      if !OneRunning(rows) || !KeysUnique(rows) { return Failed(IdempotencyConflict); }
      var reply := Row(nextId, entry);
      entries, nextId := rows, nextId + 1;
      cache := StoreKey(cache, user, key.value, StartBody(body), reply);
      return Replied(reply);
    }

    method Switch(user: UserId, key: Option<string>, body: Body, appNow: Instant, now: Instant)
      returns (outcome: Outcome)
      requires Valid()
      modifies this
      ensures Valid() && Result(View(), outcome) == Handle(weekOf, old(View()), SwitchReq(user, key, body, appNow, now))
    {
      outcome := Start(user, key, body.(mood := None), appNow, now);
    }

    method Stop(user: UserId, key: Option<string>, notes: Option<string>, now: Instant) returns (outcome: Outcome)
      requires Valid()
      modifies this
      ensures Valid() && Result(View(), outcome) == StopTimer(old(View()), user, key, notes, now)
    {
      StructStop(weekOf, View(), StopReq(user, key, notes, now));
      if key.None? || key.value == "" { return Failed(ValidationFailed); }
      match LookupKey(cache, user, key.value, StopBody(notes)) {
        case Hit(reply) => return Replied(reply);
        case Conflict => return Failed(IdempotencyConflict);
        case Miss =>
      }
      var rows := StopRunning(entries, user, notes, now);
      if !Constraints(rows) { return Failed(DbFault); }
      var reply := NoTimer;
      if exists id :: id in entries && entries[id].user == user && entries[id].status.Running? {
        var id :| id in entries && entries[id].user == user && entries[id].status.Running?;
        assert RunningId(entries, user) == Some(id);
        reply := Row(id, rows[id]);
      }
      entries := rows;
      cache := StoreKey(cache, user, key.value, StopBody(notes), reply);
      return Replied(reply);
    }

    method CleanUp(now: Instant) returns (outcome: Outcome)
      requires Valid()
      modifies this`entries
      ensures Valid() && Result(View(), outcome) == Cleanup(old(View()), now)
    {
      StructStop(weekOf, View(), CleanupReq(now));
      var rows := CloseAbandoned(entries, now);
      if !Constraints(rows) { return Failed(DbFault); }
      entries := rows;
      return Done;
    }

    // --- submit ----------------------------------------------------------------------------

    /** `candidates` are the entries looked at, in order of start; the answer lists are their drafts and the rest. */
    method SubmitEntry(user: UserId, id: EntryId, wholeWeek: bool, token: Option<Week>, now: Instant)
      returns (outcome: Outcome, submittedIds: seq<EntryId>, skipped: seq<Skip>, ghost candidates: seq<EntryId>)
      requires Valid()
      modifies this`entries, this`periods
      ensures Valid() && Result(View(), outcome) == Submit(weekOf, old(View()), user, id, wholeWeek, token, now)
      ensures outcome.Done? ==>
        && id in old(entries)
        && (forall other :: other in candidates <==>
              other in old(entries)
              && if wholeWeek
                 then KeyOf(weekOf, old(entries)[other])
                      == PeriodKey(user, if token.Some? then token.value else weekOf(user, old(entries)[id].startAt))
                 else other == id)
        && Distinct(candidates) && InStartOrder(old(entries), candidates)
        && submittedIds == Drafts(old(entries), candidates) && skipped == Skips(old(entries), candidates)
    {
      submittedIds, skipped, candidates := [], [], [];
      if id !in entries || entries[id].user != user { outcome := Failed(NotFound); return; }
      var k := SubmitTarget(weekOf, entries[id], wholeWeek, token);
      var rows;
      var ids := SubmitIds(weekOf, entries, id, k, wholeWeek);
      rows, submittedIds, skipped, candidates := FileCandidates(entries, ids, user, now);
      if !Insertable(k.week) { outcome := Failed(DbFault); return; }
      assert forall other :: other in candidates <==> other in ToSet(candidates);
      SubmitIs(weekOf, View(), user, id, wholeWeek, token, now);
      ghost var after := Submit(weekOf, View(), user, id, wholeWeek, token, now).db;
      entries := rows;
      periods := StampSubmission(periods, k, user, now);
      RecomputePeriod(k, now);
      assert View() == after;
      outcome := Done;
    }

    // --- manual entries --------------------------------------------------------------------

    method Create(user: UserId, m: Manual, now: Instant) returns (outcome: Outcome)
      requires Valid()
      modifies this
      ensures Valid() && Result(View(), outcome) == CreateManual(weekOf, old(View()), user, m, now)
    {
      StructCreate(weekOf, View(), user, m, now);
      if m.endAt <= m.startAt || m.endAt - m.startAt > DAY { return Failed(ValidationFailed); }
      if exists id :: id in entries && PreOverlap(entries[id], user, m.startAt, m.endAt) {
        return Failed(ValidationFailed);
      }
      if !Writable(weekOf, periods, user, m.startAt) { return Failed(Error.PeriodLocked); }
      var rows := entries[nextId := ManualEntry(user, m, now)];
      if !Constraints(rows) { return Failed(DbFault); }
      entries, nextId := rows, nextId + 1;
      return Done;
    }

    method EditEntry(user: UserId, id: EntryId, p: Patch, canSee: bool, now: Instant) returns (outcome: Outcome)
      requires Valid()
      modifies this`entries
      ensures Valid() && Result(View(), outcome) == Edit(weekOf, old(View()), user, id, p, canSee, now)
    {
      StructEdit(weekOf, View(), user, id, p, canSee, now);
      if id !in entries || entries[id].user != user { return Failed(NotFound); }
      var e := entries[id];
      if LockedStatus(e.status) { return Failed(Error.EntryLocked); }
      if p.startAt.Some? || p.endAt.Some? {
        var newStart := if p.startAt.Some? then p.startAt.value else e.startAt;
        if !Writable(weekOf, periods, user, newStart) { return Failed(Error.PeriodLocked); }
      }
      if p.project.Some? && p.project.value != e.project && !canSee { return Failed(Forbidden); }
      if p == NO_CHANGE { return Done; }
      var next := Patched(e, p, now);
      if next.startAt != e.startAt && !Writable(weekOf, periods, user, next.startAt) {
        return Failed(Error.PeriodLocked);
      }
      if !Constraints(entries[id := next]) { return Failed(DbFault); }
      entries := entries[id := next];
      return Done;
    }

    method RemoveEntry(user: UserId, id: EntryId) returns (outcome: Outcome)
      requires Valid()
      modifies this`entries
      ensures Valid() && Result(View(), outcome) == Remove(weekOf, old(View()), user, id)
    {
      StructRemove(View(), id);
      if id !in entries || entries[id].user != user { return Failed(NotFound); }
      if LockedStatus(entries[id].status) { return Failed(Error.EntryLocked); }
      if !Writable(weekOf, periods, user, entries[id].startAt) { return Failed(Error.PeriodLocked); }
      entries := entries - {id};
      return Done;
    }

    // --- approvals -------------------------------------------------------------------------

    /** The loop of managerAction and finalAction, without a transaction around it. */
    method ApplyEach(ids: seq<EntryId>, a: Action) returns (stop: Option<Error>)
      modifies this`entries
      ensures Batch(entries, stop) == RunBatch(old(entries), ids, a)
    {
      for i := 0 to |ids|
        invariant RunBatch(old(entries), ids[..i], a) == Batch(entries, None)
      {
        assert ids[..i + 1][..i] == ids[..i];
        ghost var upTo := RunBatch(old(entries), ids[..i + 1], a);
        if ids[i] in entries {
          if Blocked(a, entries[ids[i]]) {
            StopStays(old(entries), ids, i + 1, a);
            return Some(Forbidden);
          }
          entries := entries[ids[i] := Touched(a, entries[ids[i]])];
        } else {
          StopStays(old(entries), ids, i + 1, a);
          return Some(DbFault);
        }
      }
      assert ids[..|ids|] == ids;
      return None;
    }

    method Approve(ids: seq<EntryId>, a: Action) returns (outcome: Outcome)
      requires Valid() && Verdict(a)
      modifies this`entries, this`periods
      ensures Valid() && Result(View(), outcome) == Approval(weekOf, old(View()), ids, a)
    {
      StructBatch(View(), ids, a);
      var stop := ApplyEach(ids, a);
      if stop.Some? { return Failed(stop.value); }
      ghost var visits := RecomputeAffectedPeriods(ids, a.now);
      return Done;
    }

    method ManagerApproval(actor: UserId, ids: seq<EntryId>, approve: bool, reason: Option<string>, now: Instant)
      returns (outcome: Outcome)
      requires Valid()
      modifies this`entries, this`periods
      ensures Valid() && Result(View(), outcome) == ManagerAction(weekOf, old(View()), actor, ids, approve, reason, now)
    {
      if ids == [] || ReasonMissing(approve, reason) { return Failed(ValidationFailed); }
      outcome := Approve(ids, ManagerVerdict(actor, approve, reason, now));
    }

    method FinalApproval(actor: UserId, ids: seq<EntryId>, approve: bool, reason: Option<string>, now: Instant)
      returns (outcome: Outcome)
      requires Valid()
      modifies this`entries, this`periods
      ensures Valid() && Result(View(), outcome) == FinalAction(weekOf, old(View()), actor, ids, approve, reason, now)
    {
      if ids == [] || ReasonMissing(approve, reason) { return Failed(ValidationFailed); }
      outcome := Approve(ids, FinalVerdict(actor, approve, reason, now));
    }

    method AdminUnlockEntry(actor: UserId, id: EntryId, reason: string, now: Instant) returns (outcome: Outcome)
      requires Valid()
      modifies this`entries, this`periods
      ensures Valid() && Result(View(), outcome) == AdminUnlock(weekOf, old(View()), actor, id, reason, now)
    {
      if |reason| < 20 { return Failed(ValidationFailed); }
      if id !in entries || entries[id].endAt.None? { return Failed(DbFault); }
      StructUnlock(View(), id, FinalApproved, actor, reason, now);
      entries := entries[id := Unlocked(entries[id], FinalApproved, actor, reason, now)];
      ghost var visits := RecomputeAffectedPeriods([id], now);
      assert AffectedWeeks(weekOf, entries, [id]) == {KeyOf(weekOf, entries[id])} by { assert [id][0] in [id]; }
      return Done;
    }

    /** The unlocked ids are exactly the entries that held the lock, each once. */
    method UnlockWholeWeek(actor: UserId, k: PeriodKey, reason: string, now: Instant)
      returns (outcome: Outcome, ids: seq<EntryId>)
      requires Valid()
      modifies this`entries, this`periods
      ensures Valid() && Result(View(), outcome) == UnlockWeek(weekOf, old(View()), actor, k, reason, now)
      ensures outcome.Done? ==> Distinct(ids)
      ensures outcome.Done? ==>
          forall id :: id in ids <==>
            id in old(entries) && KeyOf(weekOf, old(entries)[id]) == k && LockedStatus(old(entries)[id].status)
    {
      ids := [];
      if |reason| < 20 { return Failed(ValidationFailed), []; }
      StructUnlockWeek(weekOf, View(), k, actor, reason, now);
      var held := set id | id in entries && KeyOf(weekOf, entries[id]) == k && LockedStatus(entries[id].status);
      ids := OrderByStart(entries, held);
      assert forall id :: id in ids <==> id in ToSet(ids);
      entries := UnlockEach(entries, ids, actor, reason, now);
      UnlockEachIs(weekOf, old(entries), k, held, actor, reason, now);
      RecomputePeriod(k, now);
      outcome := Done;
    }
  }

  lemma SubmitIs(weekOf: WeekOf, db: Db, user: UserId, id: EntryId, wholeWeek: bool, token: Option<Week>, now: Instant)
    requires Struct(db) && id in db.entries && db.entries[id].user == user
    requires Insertable(SubmitTarget(weekOf, db.entries[id], wholeWeek, token).week)
    ensures var k := SubmitTarget(weekOf, db.entries[id], wholeWeek, token);
      var rows := SubmitEntries(db.entries, SubmitIds(weekOf, db.entries, id, k, wholeWeek), user, now);
      var stored := RecomputeMany(weekOf, rows, StampSubmission(db.periods, k, user, now), {k}, now);
      && Submit(weekOf, db, user, id, wholeWeek, token, now) == Result(Db(rows, stored, db.cache, db.nextId), Done)
      && Struct(Db(rows, stored, db.cache, db.nextId))
  {
    var k := SubmitTarget(weekOf, db.entries[id], wholeWeek, token);
    var ids := SubmitIds(weekOf, db.entries, id, k, wholeWeek);
    StructSubmit(db, ids, user, now);
    var rows := SubmitEntries(db.entries, ids, user, now);
    StructPeriods(db.(entries := rows),
      RecomputeMany(weekOf, rows, StampSubmission(db.periods, k, user, now), {k}, now));
  }

  lemma {:induction false} StopStays(entries: Entries, ids: seq<EntryId>, n: nat, a: Action)
    requires n <= |ids| && RunBatch(entries, ids[..n], a).stop.Some?
    ensures RunBatch(entries, ids, a) == RunBatch(entries, ids[..n], a)
    decreases |ids|
  {
    if n == |ids| {
      assert ids[..n] == ids;
    } else {
      var front := ids[..|ids| - 1];
      assert front[..n] == ids[..n];
      StopStays(entries, front, n, a);
    }
  }
}
