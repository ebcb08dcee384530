/** Effective-dated rates: a table of half-open intervals, edited in place, that is a step function of the date. */
module Rates {
  import opened Tables
  import IsoWeeks

  type Date = IsoWeeks.Day

  /** The date open rows are taken to end at by the exclusion constraint: 9999-12-31. */
  const FOREVER: Date := IsoWeeks.NewYear(10_000) - 1

  /** A row for one key: a user, or a project with a task or none. */
  datatype RateRow<K> = RateRow(key: K, rate: int, currency: string, from: Date, to: Option<Date>)

  /** As a day number: 3652058 days after 1 January of year 1. */
  lemma ForeverIs()
    ensures FOREVER == 3_652_058
  {
    IsoWeeks.NewYearIs(10_000);
  }

  datatype BillableKey = BillableKey(project: int, task: Option<int>)

  predicate Covers<K>(r: RateRow<K>, d: Date) {
    r.from <= d && (r.to.None? || d < r.to.value)
  }

  // --- create ------------------------------------------------------------------------------

  /** The half-open date range the exclusion constraint sees. */
  function RangeEnd<K>(r: RateRow<K>): Date {
    if r.to.None? then FOREVER else r.to.value
  }

  /** Empty ranges meet nothing. */
  predicate RangesMeet<K>(a: RateRow<K>, b: RateRow<K>) {
    && a.from < RangeEnd(a) && b.from < RangeEnd(b)
    && a.from < RangeEnd(b) && b.from < RangeEnd(a)
  }

  /** The UPDATE: end-date the key's open row, if it began earlier. */
  function Closed<K(==)>(r: RateRow<K>, key: K, d: Date): RateRow<K> {
    if r.key == key && r.to.None? && r.from < d then r.(to := Some(d)) else r
  }

  function CloseOpen<K(==)>(rows: seq<RateRow<K>>, key: K, d: Date): (closed: seq<RateRow<K>>)
    ensures |closed| == |rows| && forall i :: 0 <= i < |rows| ==> closed[i] == Closed(rows[i], key, d)
  {
    seq(|rows|, i requires 0 <= i < |rows| => Closed(rows[i], key, d))
  }

  /** Whether the INSERT of `r` passes the exclusion constraint. */
  predicate Fits<K(==)>(rows: seq<RateRow<K>>, r: RateRow<K>) {
    forall i :: 0 <= i < |rows| && rows[i].key == r.key ==> !RangesMeet(rows[i], r)
  }

  /** One transaction: close the open row, insert the new one, or leave the table alone. */
  function Create<K(==)>(rows: seq<RateRow<K>>, r: RateRow<K>): seq<RateRow<K>> {
    var closed := CloseOpen(rows, r.key, r.from);
    if Fits(closed, r) then closed + [r] else rows
  }

  predicate Accepted<K(==)>(rows: seq<RateRow<K>>, r: RateRow<K>) {
    Fits(CloseOpen(rows, r.key, r.from), r)
  }

  /** What an accepted create leaves: the key's open rows that began earlier end where the new row begins, every other
      row and column is as it was, and the new row is the last, open, as requested. */
  predicate Extended<K(==)>(before: seq<RateRow<K>>, after: seq<RateRow<K>>, key: K, rate: int, currency: string,
                            from: Date) {
    && |after| == |before| + 1
    && (forall i :: 0 <= i < |before| ==>
         after[i] == if before[i].key == key && before[i].to == None && before[i].from < from
                     then RateRow(key, before[i].rate, before[i].currency, before[i].from, Some(from)) else before[i])
    && after[|before|] == RateRow(key, rate, currency, from, None)
  }

  /** A create from before the end of time is refused iff some row of its key, ended where the create begins if it is
      open and began earlier, reaches past that date; one from the end of time on never is. */
  lemma RefusedIff<K>(rows: seq<RateRow<K>>, r: RateRow<K>)
    requires r.to.None?
    ensures !Accepted(rows, r) <==> r.from < FOREVER && exists i :: 0 <= i < |rows| && ReachesPast(rows[i], r)
  {
    var closed := CloseOpen(rows, r.key, r.from);
    if !Accepted(rows, r) {
      var i :| 0 <= i < |closed| && closed[i].key == r.key && RangesMeet(closed[i], r);
      assert ReachesPast(rows[i], r);
    }
    if r.from < FOREVER {
      if i :| 0 <= i < |rows| && ReachesPast(rows[i], r) {
        assert closed[i].key == r.key && RangesMeet(closed[i], r);
      }
    }
  }

  /** The row begins before the end of time and is not over by the create's date, even if the create end-dates it. */
  predicate ReachesPast<K(==)>(row: RateRow<K>, r: RateRow<K>) {
    && row.key == r.key && row.from < FOREVER
    && if row.to.None? then r.from <= row.from else row.from < row.to.value && r.from < row.to.value
  }

  class RateTable<K(==)> {
    var rows: seq<RateRow<K>>

    constructor ()
      ensures rows == []
    {
      rows := [];
    }

    /** POST: the rate may be rejected as conflicting; then nothing has changed. */
    method Post(key: K, rate: int, currency: string, from: Date) returns (ok: bool)
      modifies this
      ensures rows == Create(old(rows), RateRow(key, rate, currency, from, None))
      ensures ok <==> Accepted(old(rows), RateRow(key, rate, currency, from, None))
      ensures if ok then Extended(old(rows), rows, key, rate, currency, from) else rows == old(rows)
    {
      var r := RateRow(key, rate, currency, from, None);
      var i := 0;
      var work := rows;
      while i < |work|
        invariant 0 <= i <= |work| == |rows|
        invariant forall j :: 0 <= j < |rows| ==> work[j] == if j < i then Closed(rows[j], key, from) else rows[j]
      {
        if work[i].key == key && work[i].to.None? && work[i].from < from {
          work := work[i := work[i].(to := Some(from))];
        }
        i := i + 1;
      }
      assert work == CloseOpen(rows, key, from);
      ok := Fits(work, r);
      if ok { rows := work + [r]; }
    }

    /** get_effective_cost_rate: the covering row that begins last; of several that begin on one date, the query
        may give any, and this gives the last inserted. */
    method Effective(key: K, d: Date) returns (found: Option<RateRow<K>>)
      ensures found == InForce(rows, key, d)
      ensures found.None? <==> forall i :: 0 <= i < |rows| && rows[i].key == key ==> !Covers(rows[i], d)
      ensures found.Some? ==>
        && found.value in rows && found.value.key == key && Covers(found.value, d)
        && forall i :: 0 <= i < |rows| && rows[i].key == key && Covers(rows[i], d) ==> rows[i].from <= found.value.from
      ensures found.Some? ==> exists i :: 0 <= i < |rows| && Wins(rows, key, d, i) && rows[i] == found.value
    {
      found := None;
      for i := 0 to |rows|
        invariant found == InForce(rows[..i], key, d)
      {
        assert rows[..i + 1][..i] == rows[..i];
        if rows[i].key == key && Covers(rows[i], d) && (found.None? || found.value.from <= rows[i].from) {
          found := Some(rows[i]);
        }
      }
      assert rows[..|rows|] == rows;
      InForceIs(rows, key, d);
      WinnerIs(rows, key, d);
    }
  }

  /** The row the lookup gives. */
  function InForce<K(==)>(rows: seq<RateRow<K>>, key: K, d: Date): Option<RateRow<K>> {
    if rows == [] then None
    else
      var best, r := InForce(rows[..|rows| - 1], key, d), rows[|rows| - 1];
      if r.key == key && Covers(r, d) && (best.None? || best.value.from <= r.from) then Some(r) else best
  }

  lemma {:induction false} InForceIs<K>(rows: seq<RateRow<K>>, key: K, d: Date)
    ensures var found := InForce(rows, key, d);
      && (found.None? <==> forall i :: 0 <= i < |rows| && rows[i].key == key ==> !Covers(rows[i], d))
      && (found.Some? ==> found.value in rows && found.value.key == key && Covers(found.value, d))
      && (found.Some? ==> forall i :: 0 <= i < |rows| && rows[i].key == key && Covers(rows[i], d) ==>
                            rows[i].from <= found.value.from)
  {
    if rows != [] {
      var front := rows[..|rows| - 1];
      InForceIs(front, key, d);
      assert rows == front + [rows[|rows| - 1]];
    }
  }

  /** The row is for the key and the date lies in it: from its first day on and before its end, if it has one. */
  predicate Valid<K(==)>(r: RateRow<K>, key: K, d: Date) {
    r.key == key && r.from <= d && (r.to.Some? ==> d < r.to.value)
  }

  /** Row `i` is valid on the date, and of the valid ones begins last, and of those that begin with it comes last. */
  predicate Wins<K(==)>(rows: seq<RateRow<K>>, key: K, d: Date, i: int) {
    && 0 <= i < |rows| && Valid(rows[i], key, d)
    && forall j :: 0 <= j < |rows| && Valid(rows[j], key, d) ==>
         rows[j].from < rows[i].from || (rows[j].from == rows[i].from && j <= i)
  }

  lemma {:induction false} WinnerIs<K>(rows: seq<RateRow<K>>, key: K, d: Date)
    ensures InForce(rows, key, d).None? <==> forall i :: 0 <= i < |rows| ==> !Valid(rows[i], key, d)
    ensures InForce(rows, key, d).Some? ==>
      exists i :: 0 <= i < |rows| && Wins(rows, key, d, i) && rows[i] == InForce(rows, key, d).value
  {
    if rows != [] {
      var front, n := rows[..|rows| - 1], |rows| - 1;
      WinnerIs(front, key, d);
      forall i | 0 <= i < n ensures front[i] == rows[i] { }
      if InForce(front, key, d).Some? {
        var i :| 0 <= i < n && Wins(front, key, d, i) && front[i] == InForce(front, key, d).value;
        assert Valid(rows[n], key, d) && front[i].from <= rows[n].from ==> Wins(rows, key, d, n);
        assert !(Valid(rows[n], key, d) && front[i].from <= rows[n].from) ==> Wins(rows, key, d, i);
      } else if Valid(rows[n], key, d) {
        assert Wins(rows, key, d, n);
      }
    }
  }

  // --- tables that tile --------------------------------------------------------------------

  /** The row of the key that covers the date, as an index. */
  predicate CoveredBy<K(==)>(rows: seq<RateRow<K>>, key: K, d: Date, i: int) {
    0 <= i < |rows| && rows[i].key == key && Covers(rows[i], d)
  }

  /** Every row of the key begins by the end of time, and ends later than it begins and by then. */
  predicate InTime<K(==)>(rows: seq<RateRow<K>>, key: K) {
    forall i :: 0 <= i < |rows| && rows[i].key == key ==>
      rows[i].from <= FOREVER && (rows[i].to.Some? ==> rows[i].from < rows[i].to.value <= FOREVER)
  }

  /** The key's rows that begin before the end of time end no later than the next ones begin. */
  predicate Ordered<K(==)>(rows: seq<RateRow<K>>, key: K) {
    forall i, j ::
      0 <= i < j < |rows| && rows[i].key == key && rows[j].key == key && rows[i].from < FOREVER
        && rows[j].from < FOREVER ==>
        rows[i].to.Some? && rows[i].to.value <= rows[j].from
  }

  /** Row `j` of the key takes over from row `i`. */
  predicate Follows<K(==)>(rows: seq<RateRow<K>>, i: nat, j: nat) {
    && i < j < |rows| && rows[j].key == rows[i].key
    && rows[i].to == Some(rows[j].from)
  }

  /** Where a row of the key ends, another begins. */
  ghost predicate Linked<K>(rows: seq<RateRow<K>>, key: K) {
    forall i: nat :: i < |rows| && rows[i].key == key && rows[i].to.Some? ==> exists j: nat :: Follows(rows, i, j)
  }

  /** The key's rows, in table order: each ends where another begins, and before the end of time none overlap. */
  ghost predicate Tiles<K>(rows: seq<RateRow<K>>, key: K) {
    InTime(rows, key) && Ordered(rows, key) && Linked(rows, key)
  }

  /** Tiling means: from the key's first date on every date is covered, before the end of time by exactly one row;
      from then on by exactly the rows that were never end-dated. */
  lemma TilesCover<K>(rows: seq<RateRow<K>>, key: K, d: Date)
    requires Tiles(rows, key)
    ensures (exists i :: CoveredBy(rows, key, d, i)) <==>
        exists i :: 0 <= i < |rows| && rows[i].key == key && rows[i].from <= d
    ensures d < FOREVER ==> forall i, j :: CoveredBy(rows, key, d, i) && CoveredBy(rows, key, d, j) ==> i == j
    ensures d >= FOREVER ==>
      forall i :: CoveredBy(rows, key, d, i) <==> 0 <= i < |rows| && rows[i].key == key && rows[i].to.None?
  {
    if start :| 0 <= start < |rows| && rows[start].key == key && rows[start].from <= d {
      var i := CoveringFrom(rows, key, start, d);
      assert CoveredBy(rows, key, d, i);
    }
  }

  lemma {:induction false} CoveringFrom<K>(rows: seq<RateRow<K>>, key: K, start: nat, d: Date) returns (i: nat)
    requires Tiles(rows, key) && start < |rows| && rows[start].key == key && rows[start].from <= d
    ensures CoveredBy(rows, key, d, i)
    decreases |rows| - start
  {
    i := start;
    if !Covers(rows[start], d) {
      var j: nat :| Follows(rows, start, j);
      i := CoveringFrom(rows, key, j, d);
    }
  }

  /** `d` lies after every start of the key before the end of time, and no row of the key has been end-dated there. */
  predicate After<K(==)>(rows: seq<RateRow<K>>, key: K, d: Date) {
    forall i :: 0 <= i < |rows| && rows[i].key == key && rows[i].from < FOREVER ==>
      rows[i].from < d && rows[i].to != Some(FOREVER)
  }

  /** A create is accepted iff it is dated the end of time itself, whose range is empty and conflicts with nothing,
      or lies after every start of a non-empty range of the key, none of which already reaches to the end of time. */
  lemma AcceptedIff<K>(rows: seq<RateRow<K>>, r: RateRow<K>)
    requires Tiles(rows, r.key) && r.to.None? && r.from <= FOREVER
    ensures Accepted(rows, r) <==> r.from == FOREVER || After(rows, r.key, r.from)
  {
    var closed := CloseOpen(rows, r.key, r.from);
    if r.from < FOREVER {
      if !After(rows, r.key, r.from) {
        var i :| 0 <= i < |rows| && rows[i].key == r.key && rows[i].from < FOREVER
                 && (r.from <= rows[i].from || rows[i].to == Some(FOREVER));
        assert closed[i] == rows[i];
        assert RangesMeet(closed[i], r);
      } else {
        EndsBefore(rows, r.key, r.from);
      }
    }
  }

  /** `d` lies after every start of the key. */
  predicate AfterAll<K(==)>(rows: seq<RateRow<K>>, key: K, d: Date) {
    forall i :: 0 <= i < |rows| && rows[i].key == key ==> rows[i].from < d
  }

  predicate Ended<K(==)>(rows: seq<RateRow<K>>, key: K) {
    exists i :: 0 <= i < |rows| && rows[i].key == key && rows[i].from == FOREVER
  }

  /** A create is accepted exactly when it lies after every start of the key, unless the key has a row from the end of
      time and the create is dated there too or passes over that row. */
  lemma AfterEveryStartIff<K>(rows: seq<RateRow<K>>, r: RateRow<K>)
    requires Tiles(rows, r.key) && r.to.None? && r.from <= FOREVER
    ensures (Accepted(rows, r) <==> AfterAll(rows, r.key, r.from))
      <==> !Ended(rows, r.key) || (r.from < FOREVER && !After(rows, r.key, r.from))
  {
    AcceptedIff(rows, r);
    if i :| 0 <= i < |rows| && rows[i].key == r.key && rows[i].to == Some(FOREVER) { SealedIsEnded(rows, r.key, i); }
  }

  lemma SealedIsEnded<K>(rows: seq<RateRow<K>>, key: K, i: nat)
    requires Linked(rows, key) && i < |rows| && rows[i].key == key && rows[i].to == Some(FOREVER)
    ensures Ended(rows, key)
  {
    var j: nat :| Follows(rows, i, j);
    assert rows[j].from == FOREVER;
  }

  lemma EndsBefore<K>(rows: seq<RateRow<K>>, key: K, d: Date)
    requires InTime(rows, key) && Linked(rows, key) && After(rows, key, d)
    ensures forall i :: 0 <= i < |rows| && rows[i].key == key && rows[i].to.Some? ==> rows[i].to.value < d
  {
    forall i | 0 <= i < |rows| && rows[i].key == key && rows[i].to.Some? ensures rows[i].to.value < d {
      var j: nat :| Follows(rows, i, j);
    }
  }

  lemma OwnKeyKeepsOrder<K>(rows: seq<RateRow<K>>, r: RateRow<K>)
    requires Tiles(rows, r.key) && r.to.None? && r.from <= FOREVER
    requires r.from == FOREVER || After(rows, r.key, r.from)
    ensures InTime(CloseOpen(rows, r.key, r.from) + [r], r.key)
    ensures Ordered(CloseOpen(rows, r.key, r.from) + [r], r.key)
  {
    if r.from < FOREVER { EndsBefore(rows, r.key, r.from); }
    var closed := CloseOpen(rows, r.key, r.from);
    assert forall i :: 0 <= i < |closed| ==> closed[i] == Closed(rows[i], r.key, r.from);
  }

  lemma OwnKeyKeepsLinks<K>(rows: seq<RateRow<K>>, r: RateRow<K>)
    requires Linked(rows, r.key) && r.to.None?
    ensures Linked(CloseOpen(rows, r.key, r.from) + [r], r.key)
  {
    var after := CloseOpen(rows, r.key, r.from) + [r];
    forall i: nat | i < |after| && after[i].key == r.key && after[i].to.Some?
      ensures exists j: nat :: Follows(after, i, j)
    {
      if rows[i].to.Some? {
        var j: nat :| Follows(rows, i, j);
        assert Follows(after, i, j);
      } else {
        assert Follows(after, i, |rows|);
      }
    }
  }

  lemma OtherKeysKeepTiles<K>(rows: seq<RateRow<K>>, r: RateRow<K>, key: K)
    requires Tiles(rows, key) && key != r.key
    ensures Tiles(Create(rows, r), key)
  {
    var after := Create(rows, r);
    assert forall i :: 0 <= i < |rows| && rows[i].key == key ==> after[i] == rows[i];
    forall i: nat | i < |after| && after[i].key == key && after[i].to.Some?
      ensures exists j: nat :: Follows(after, i, j)
    {
      var j: nat :| Follows(rows, i, j);
      assert Follows(after, i, j);
    }
  }

  /** A create, accepted or not, keeps every key's tiling. */
  lemma CreateKeepsTiles<K>(rows: seq<RateRow<K>>, r: RateRow<K>, key: K)
    requires Tiles(rows, key) && Tiles(rows, r.key) && r.to.None? && r.from <= FOREVER
    ensures Tiles(Create(rows, r), key)
  {
    AcceptedIff(rows, r);
    if key != r.key { OtherKeysKeepTiles(rows, r, key); }
    else if Accepted(rows, r) { OwnKeyKeepsOrder(rows, r); OwnKeyKeepsLinks(rows, r); }
  }

  // --- the step function -------------------------------------------------------------------

  /** The rate in force. */
  function RateOn<K(==)>(rows: seq<RateRow<K>>, key: K, d: Date): Option<int> {
    var found := InForce(rows, key, d);
    if found.Some? then Some(found.value.rate) else None
  }

  /** Where one row covers the date, it is the one in force, and the query's ORDER BY cannot matter. */
  lemma RateOnIs<K>(rows: seq<RateRow<K>>, key: K, d: Date, i: nat)
    requires CoveredBy(rows, key, d, i) && forall j: nat :: CoveredBy(rows, key, d, j) ==> j == i
    ensures InForce(rows, key, d) == Some(rows[i])
  {
    InForceIs(rows, key, d);
    var j :| 0 <= j < |rows| && rows[j] == InForce(rows, key, d).value;
    assert CoveredBy(rows, key, d, j);
  }

  /** A row of the key that begins later is in force on the date. */
  predicate Overshadowed<K(==)>(rows: seq<RateRow<K>>, r: RateRow<K>, d: Date) {
    var found := InForce(rows, r.key, d);
    found.Some? && r.from < found.value.from
  }

  /** End-dating at `at` takes out of force, on the dates from `at` on, at most the key's rows that began before. */
  lemma {:induction false} ClosingTakesOut<K>(rows: seq<RateRow<K>>, closing: K, at: Date, key: K, d: Date)
    ensures var was, now := InForce(rows, key, d), InForce(CloseOpen(rows, closing, at), key, d);
      if key != closing || d < at || (was.Some? && at <= was.value.from)
      then && now.Some? == was.Some?
           && (was.Some? ==> now.value.rate == was.value.rate && now.value.from == was.value.from)
      else now.None? || now.value.from < at
  {
    if rows != [] {
      var n := |rows| - 1;
      ClosingTakesOut(rows[..n], closing, at, key, d);
      assert CloseOpen(rows, closing, at)[..n] == CloseOpen(rows[..n], closing, at);
    }
  }

  /** An accepted create changes exactly the lookups of its key from its date on, short of those a later-dated row
      answers; a rejected one, none. */
  lemma CreateIsStep<K>(rows: seq<RateRow<K>>, r: RateRow<K>, key: K, d: Date)
    requires r.to.None?
    ensures RateOn(Create(rows, r), key, d)
      == if Accepted(rows, r) && key == r.key && r.from <= d && !Overshadowed(rows, r, d) then Some(r.rate)
         else RateOn(rows, key, d)
  {
    if Accepted(rows, r) {
      var closed := CloseOpen(rows, r.key, r.from);
      assert (closed + [r])[..|rows|] == closed;
      ClosingTakesOut(rows, r.key, r.from, key, d);
    }
  }

  /** In a tiling table, only a row from the end of time can answer for a later create, and only from then on. */
  lemma OvershadowedIff<K>(rows: seq<RateRow<K>>, r: RateRow<K>, d: Date)
    requires Tiles(rows, r.key) && r.to.None? && r.from <= FOREVER && Accepted(rows, r)
    ensures Overshadowed(rows, r, d) <==>
      d >= FOREVER > r.from && Ended(rows, r.key)
  {
    AcceptedIff(rows, r);
    InForceIs(rows, r.key, d);
    TilesCover(rows, r.key, d);
    if i :| 0 <= i < |rows| && rows[i].key == r.key && rows[i].from == FOREVER {
      if d >= FOREVER { assert CoveredBy(rows, r.key, d, i); }
    }
  }

  // --- over runs ---------------------------------------------------------------------------

  datatype RateRequest<K> = RateRequest(key: K, rate: int, currency: string, from: Date)

  function RowOf<K>(q: RateRequest<K>): RateRow<K> {
    RateRow(q.key, q.rate, q.currency, q.from, None)
  }

  /** The table after a run of creates from an empty one. */
  function Table<K(==)>(qs: seq<RateRequest<K>>): seq<RateRow<K>> {
    if qs == [] then [] else Create(Table(qs[..|qs| - 1]), RowOf(qs[|qs| - 1]))
  }

  /** Dates have four-digit years. */
  predicate Dated<K>(qs: seq<RateRequest<K>>) {
    forall i :: 0 <= i < |qs| ==> qs[i].from <= FOREVER
  }

  /** How far a key's steps have got: the date of the last one before the end of time, whether a request at the end of
      time came after one, which seals the key, and whether any came at all. */
  datatype Reach = Reach(last: Option<Date>, sealed: bool, ended: bool)

  /** Whether the request takes effect: by dates alone, without any table. */
  predicate Steps<K(==)>(reach: Reach, q: RateRequest<K>) {
    q.from == FOREVER || (!reach.sealed && (reach.last.None? || reach.last.value < q.from))
  }

  function ReachOf<K(==)>(qs: seq<RateRequest<K>>, key: K): Reach {
    if qs == [] then Reach(None, false, false)
    else
      var before, q := ReachOf(qs[..|qs| - 1], key), qs[|qs| - 1];
      if q.key != key || !Steps(before, q) then before
      else if q.from == FOREVER then Reach(before.last, before.sealed || before.last.Some?, true)
      else before.(last := Some(q.from))
  }

  /** The step function the run stands for: the last request to take effect by the date, but from the end of time on
      one dated there ranks above all others. */
  function StepFunction<K(==)>(qs: seq<RateRequest<K>>, key: K, d: Date): Option<int> {
    if qs == [] then None
    else
      var front, q := qs[..|qs| - 1], qs[|qs| - 1];
      var before := ReachOf(front, key);
      if q.key == key && Steps(before, q) && q.from <= d && !(before.ended && q.from < FOREVER <= d) then Some(q.rate)
      else StepFunction(front, key, d)
  }

  predicate IsRow<K(==)>(rows: seq<RateRow<K>>, key: K, i: int) {
    0 <= i < |rows| && rows[i].key == key
  }

  /** The table has got as far as the dates say. */
  ghost predicate Reaches<K>(rows: seq<RateRow<K>>, key: K, reach: Reach) {
    && (forall i :: IsRow(rows, key, i) && rows[i].from < FOREVER ==>
         reach.last.Some? && rows[i].from <= reach.last.value)
    && (reach.last.Some? ==> exists i :: IsRow(rows, key, i) && rows[i].from == reach.last.value < FOREVER
                                         && rows[i].to == if reach.sealed then Some(FOREVER) else None)
    && (reach.sealed ==> reach.last.Some?)
    && (!reach.sealed ==> forall i :: IsRow(rows, key, i) ==> rows[i].to != Some(FOREVER))
    && (reach.ended <==> exists i :: IsRow(rows, key, i) && rows[i].from == FOREVER)
  }

  lemma ReachedAccepts<K>(rows: seq<RateRow<K>>, q: RateRequest<K>, reach: Reach)
    requires Tiles(rows, q.key) && q.from <= FOREVER && Reaches(rows, q.key, reach)
    ensures Accepted(rows, RowOf(q)) <==> Steps(reach, q)
  {
    AcceptedIff(rows, RowOf(q));
    if reach.last.Some? {
      var i :| IsRow(rows, q.key, i) && rows[i].from == reach.last.value < FOREVER
        && rows[i].to == if reach.sealed then Some(FOREVER) else None;
    }
    if Steps(reach, q) && q.from < FOREVER {
      forall i | 0 <= i < |rows| && rows[i].key == q.key && rows[i].from < FOREVER
        ensures rows[i].from < q.from && rows[i].to != Some(FOREVER)
      {
        assert IsRow(rows, q.key, i);
      }
    }
  }

  /** The reach after one more accepted request of the key. */
  function Onward<K(==)>(reach: Reach, q: RateRequest<K>): Reach {
    if q.from == FOREVER then Reach(reach.last, reach.sealed || reach.last.Some?, true)
      else reach.(last := Some(q.from))
  }

  lemma EndMovesOn<K>(rows: seq<RateRow<K>>, q: RateRequest<K>, reach: Reach)
    requires Tiles(rows, q.key) && q.from == FOREVER && Reaches(rows, q.key, reach)
    ensures Reaches(CloseOpen(rows, q.key, q.from) + [RowOf(q)], q.key, Onward(reach, q))
  {
    var after := CloseOpen(rows, q.key, q.from) + [RowOf(q)];
    forall i | 0 <= i < |rows| ensures after[i] == Closed(rows[i], q.key, q.from) { }
    assert IsRow(after, q.key, |rows|) && after[|rows|] == RowOf(q);
    forall i | IsRow(after, q.key, i) && i < |rows| ensures IsRow(rows, q.key, i) { }
    if reach.last.Some? {
      var i :| IsRow(rows, q.key, i) && rows[i].from == reach.last.value < FOREVER
        && rows[i].to == if reach.sealed then Some(FOREVER) else None;
      assert IsRow(after, q.key, i) && after[i].to == Some(FOREVER);
    }
  }

  lemma StepMovesOn<K>(rows: seq<RateRow<K>>, q: RateRequest<K>, reach: Reach)
    requires Tiles(rows, q.key) && q.from < FOREVER && Reaches(rows, q.key, reach) && Steps(reach, q)
    ensures Reaches(CloseOpen(rows, q.key, q.from) + [RowOf(q)], q.key, Onward(reach, q))
  {
    var after := CloseOpen(rows, q.key, q.from) + [RowOf(q)];
    forall i | 0 <= i < |rows| ensures after[i] == Closed(rows[i], q.key, q.from) { }
    assert IsRow(after, q.key, |rows|) && after[|rows|] == RowOf(q);
    forall i | IsRow(after, q.key, i) && i < |rows| ensures IsRow(rows, q.key, i) { }
    if reach.ended {
      var i :| IsRow(rows, q.key, i) && rows[i].from == FOREVER;
      assert IsRow(after, q.key, i) && after[i].from == FOREVER;
    }
  }

  lemma OthersReachStays<K>(rows: seq<RateRow<K>>, r: RateRow<K>, key: K, reach: Reach)
    requires Reaches(rows, key, reach) && key != r.key
    ensures Reaches(Create(rows, r), key, reach)
  {
    var after := Create(rows, r);
    forall i | IsRow(rows, key, i) ensures IsRow(after, key, i) && after[i] == rows[i] { }
    forall i | IsRow(after, key, i) ensures IsRow(rows, key, i) { }
  }

  /** After any run from an empty table, every key's rows tile. */
  lemma {:induction false} RunsTile<K>(qs: seq<RateRequest<K>>, key: K)
    requires Dated(qs)
    ensures Tiles(Table(qs), key)
  {
    if qs != [] {
      var front, q := qs[..|qs| - 1], qs[|qs| - 1];
      RunsTile(front, key);
      RunsTile(front, q.key);
      CreateKeepsTiles(Table(front), RowOf(q), key);
    }
  }

  lemma {:induction false} RunsReach<K>(qs: seq<RateRequest<K>>, key: K)
    requires Dated(qs)
    ensures Reaches(Table(qs), key, ReachOf(qs, key))
  {
    if qs != [] {
      var front, q := qs[..|qs| - 1], qs[|qs| - 1];
      RunsReach(front, key);
      if q.key != key {
        OthersReachStays(Table(front), RowOf(q), key, ReachOf(front, key));
      } else {
        RunsTile(front, key);
        ReachedAccepts(Table(front), q, ReachOf(front, key));
        if q.from == FOREVER { EndMovesOn(Table(front), q, ReachOf(front, key)); }
        else if Steps(ReachOf(front, key), q) { StepMovesOn(Table(front), q, ReachOf(front, key)); }
      }
    }
  }

  /** In every run, a create is accepted iff it is dated the end of time, or lies after the key's last step and the key
      is not sealed. */
  lemma AcceptedOverRuns<K>(qs: seq<RateRequest<K>>, q: RateRequest<K>)
    requires Dated(qs) && q.from <= FOREVER
    ensures Accepted(Table(qs), RowOf(q)) <==> Steps(ReachOf(qs, q.key), q)
  {
    RunsTile(qs, q.key);
    RunsReach(qs, q.key);
    ReachedAccepts(Table(qs), q, ReachOf(qs, q.key));
  }

  // --- the end of time ---------------------------------------------------------------------

  /** The dates alone tell how far a key's steps have got. */
  lemma {:induction false} ReachIs<K>(qs: seq<RateRequest<K>>, key: K)
    requires Dated(qs)
    ensures ReachOf(qs, key).last.Some? <==> exists i :: 0 <= i < |qs| && qs[i].key == key && qs[i].from < FOREVER
    ensures ReachOf(qs, key).ended <==> exists i :: 0 <= i < |qs| && qs[i].key == key && qs[i].from == FOREVER
    ensures ReachOf(qs, key).sealed <==>
      exists i, j :: 0 <= i < j < |qs| && qs[i].key == key == qs[j].key && qs[i].from < FOREVER && qs[j].from == FOREVER
  {
    if qs != [] {
      ReachIs(qs[..|qs| - 1], key);
      assert forall i :: 0 <= i < |qs| ==> qs[i] == if i < |qs| - 1 then qs[..|qs| - 1][i] else qs[|qs| - 1];
    }
  }

  ghost predicate OpenOnce<K>(rows: seq<RateRow<K>>, key: K) {
    forall i, j :: IsRow(rows, key, i) && IsRow(rows, key, j) && rows[i].to.None? && rows[j].to.None? ==> i == j
  }

  lemma CreateOpensOnce<K>(rows: seq<RateRow<K>>, q: RateRequest<K>, reach: Reach)
    requires Tiles(rows, q.key) && q.from <= FOREVER && Reaches(rows, q.key, reach) && Steps(reach, q)
    ensures OpenOnce(CloseOpen(rows, q.key, q.from) + [RowOf(q)], q.key) <==>
      !reach.ended || (q.from < FOREVER && reach.last.Some? && OpenOnce(rows, q.key))
  {
    var after := CloseOpen(rows, q.key, q.from) + [RowOf(q)];
    forall i | 0 <= i < |rows| ensures after[i] == Closed(rows[i], q.key, q.from) { }
    assert IsRow(after, q.key, |rows|) && after[|rows|] == RowOf(q);
    forall i | IsRow(after, q.key, i) && i < |rows| ensures IsRow(rows, q.key, i) { }
    if reach.ended {
      var i :| IsRow(rows, q.key, i) && rows[i].from == FOREVER;
      assert IsRow(after, q.key, i) && after[i].to.None?;
    }
  }

  predicate Preceded<K(==)>(qs: seq<RateRequest<K>>, key: K, i: int) {
    exists h :: 0 <= h < i && h < |qs| && qs[h].key == key
  }

  /** The key has at most one request dated the end of time, and that one is not the first of several. */
  predicate Once<K(==)>(qs: seq<RateRequest<K>>, key: K) {
    forall i, j :: 0 <= i < j < |qs| && qs[i].key == key == qs[j].key && qs[i].from == FOREVER ==>
      qs[j].from < FOREVER && Preceded(qs, key, i)
  }

  /** Every request of the key dated the end of time has one before it. */
  predicate NoneFirst<K(==)>(qs: seq<RateRequest<K>>, key: K) {
    forall i :: 0 <= i < |qs| && qs[i].key == key && qs[i].from == FOREVER ==> Preceded(qs, key, i)
  }

  lemma OnceOneMore<K>(qs: seq<RateRequest<K>>, key: K)
    requires qs != [] && Dated(qs)
    ensures var front, q := qs[..|qs| - 1], qs[|qs| - 1];
      Once(qs, key) <==>
        && Once(front, key)
        && (q.key == key ==> if q.from < FOREVER then NoneFirst(front, key)
                             else forall i :: 0 <= i < |front| && front[i].key == key ==> front[i].from != FOREVER)
  {
    var front := qs[..|qs| - 1];
    forall i | 0 <= i < |front| ensures front[i] == qs[i] && (Preceded(front, key, i) <==> Preceded(qs, key, i)) {
      if Preceded(qs, key, i) { var h :| 0 <= h < i && qs[h].key == key; assert front[h] == qs[h]; }
      if Preceded(front, key, i) { var h :| 0 <= h < i && front[h].key == key; assert front[h] == qs[h]; }
    }
    if Once(qs, key) {
      forall i, j | 0 <= i < j < |front| && front[i].key == key == front[j].key && front[i].from == FOREVER
        ensures front[j].from < FOREVER && Preceded(front, key, i)
      {
        assert qs[i] == front[i] && qs[j] == front[j];
      }
    }
  }

  lemma OnceThenSteps<K>(qs: seq<RateRequest<K>>, key: K)
    requires Dated(qs) && Once(qs, key) && ReachOf(qs, key).ended
    ensures NoneFirst(qs, key) <==> ReachOf(qs, key).last.Some?
  {
    ReachIs(qs, key);
    if ReachOf(qs, key).last.Some? {
      var p :| 0 <= p < |qs| && qs[p].key == key && qs[p].from < FOREVER;
      forall i | 0 <= i < |qs| && qs[i].key == key && qs[i].from == FOREVER ensures Preceded(qs, key, i) {
        if p < i { assert Preceded(qs, key, i); }
      }
    }
  }

  /** In every run, at most one row of a key is never end-dated iff the dates say so. */
  lemma {:induction false} RunsOpenOnceIff<K>(qs: seq<RateRequest<K>>, key: K)
    requires Dated(qs)
    ensures OpenOnce(Table(qs), key) <==> Once(qs, key)
  {
    if qs != [] {
      var front, q := qs[..|qs| - 1], qs[|qs| - 1];
      var reach := ReachOf(front, key);
      RunsOpenOnceIff(front, key);
      OnceOneMore(qs, key);
      if q.key != key {
        OthersOpenStay(Table(front), RowOf(q), key);
      } else {
        RunsTile(front, key);
        RunsReach(front, key);
        ReachIs(front, key);
        AcceptedOverRuns(front, q);
        if Once(front, key) && reach.ended { OnceThenSteps(front, key); }
        if Steps(reach, q) { CreateOpensOnce(Table(front), q, reach); }
      }
    }
  }

  lemma OthersOpenStay<K>(rows: seq<RateRow<K>>, r: RateRow<K>, key: K)
    requires key != r.key
    ensures OpenOnce(Create(rows, r), key) <==> OpenOnce(rows, key)
  {
    var after := Create(rows, r);
    forall i ensures IsRow(rows, key, i) ==> IsRow(after, key, i) && after[i] == rows[i] { }
    forall i ensures IsRow(after, key, i) ==> IsRow(rows, key, i) { }
  }

  /** In every run, no date of a key has two rows exactly when the key has at most one request dated the end of time,
      and that one is not the first of several. Before the end of time no date ever has. */
  lemma CoveredOnceIff<K>(qs: seq<RateRequest<K>>, key: K)
    requires Dated(qs)
    ensures
      Once(qs, key) <==> forall d, i, j :: CoveredBy(Table(qs), key, d, i) && CoveredBy(Table(qs), key, d, j) ==> i == j
  {
    var rows := Table(qs);
    RunsTile(qs, key);
    RunsOpenOnceIff(qs, key);
    if OpenOnce(rows, key) {
      forall d, i, j | CoveredBy(rows, key, d, i) && CoveredBy(rows, key, d, j) ensures i == j {
        TilesCover(rows, key, d);
        assert d >= FOREVER ==> IsRow(rows, key, i) && IsRow(rows, key, j);
      }
    } else {
      TilesCover(rows, key, FOREVER);
      var i, j :| IsRow(rows, key, i) && IsRow(rows, key, j) && rows[i].to.None? && rows[j].to.None? && i != j;
      assert CoveredBy(rows, key, FOREVER, i) && CoveredBy(rows, key, FOREVER, j);
    }
  }

  /** Two ways to two rates on one date: a second request at the end of time, and a first request there with an earlier
      one after it. */
  lemma EndOfTimeTwice<K>(key: K, a: int, b: int, currency: string, d: Date)
    requires d <= FOREVER
    ensures var last, other := RateRequest(key, a, currency, FOREVER), RateRequest(key, b, currency, d);
      && Table([last, other]) == [RowOf(last), RowOf(other)]
      && CoveredBy(Table([last, other]), key, FOREVER, 0) && CoveredBy(Table([last, other]), key, FOREVER, 1)
  {
    var last, other := RateRequest(key, a, currency, FOREVER), RateRequest(key, b, currency, d);
    assert [last, other][..1] == [last] && [last][..0] == [];
    assert Table([last]) == [RowOf(last)];
    assert CloseOpen([RowOf(last)], key, d) == [RowOf(last)];
  }

  /** The table refines the step function: after any run from an empty table, every lookup of every date gives
      what the requests, taken as steps, give. */
  lemma {:induction false} TableRefinesStepFunction<K>(qs: seq<RateRequest<K>>, key: K, d: Date)
    requires Dated(qs)
    ensures RateOn(Table(qs), key, d) == StepFunction(qs, key, d)
  {
    if qs != [] {
      var front, q := qs[..|qs| - 1], qs[|qs| - 1];
      TableRefinesStepFunction(front, key, d);
      CreateIsStep(Table(front), RowOf(q), key, d);
      if q.key == key {
        AcceptedOverRuns(front, q);
        RunsTile(front, key);
        RunsReach(front, key);
        if Accepted(Table(front), RowOf(q)) {
          OvershadowedIff(Table(front), RowOf(q), d);
          EndedIff(Table(front), key, ReachOf(front, key));
        }
      }
    }
  }

  lemma EndedIff<K>(rows: seq<RateRow<K>>, key: K, reach: Reach)
    requires Reaches(rows, key, reach)
    ensures reach.ended <==> Ended(rows, key)
  {
    if i :| 0 <= i < |rows| && rows[i].key == key && rows[i].from == FOREVER { assert IsRow(rows, key, i); }
    if reach.ended { var i :| IsRow(rows, key, i) && rows[i].from == FOREVER; }
  }

  // --- billable rates ----------------------------------------------------------------------

  /** get_effective_billable_rate: a task's own rate ranks above the project's default. */
  function BillableOn(rows: seq<RateRow<BillableKey>>, project: int, task: Option<int>, d: Date): Option<int> {
    var own := RateOn(rows, BillableKey(project, task), d);
    if own.Some? then own else RateOn(rows, BillableKey(project, None), d)
  }

  ghost predicate NoneValid<K>(rows: seq<RateRow<K>>, key: K, d: Date) {
    forall i :: 0 <= i < |rows| ==> !Valid(rows[i], key, d)
  }

  lemma RateIs<K>(rows: seq<RateRow<K>>, key: K, d: Date)
    ensures RateOn(rows, key, d).None? <==> NoneValid(rows, key, d)
    ensures forall i :: Wins(rows, key, d, i) ==> RateOn(rows, key, d) == Some(rows[i].rate)
  {
    WinnerIs(rows, key, d);
    forall i | Wins(rows, key, d, i) ensures RateOn(rows, key, d) == Some(rows[i].rate) {
      var j :| 0 <= j < |rows| && Wins(rows, key, d, j) && rows[j] == InForce(rows, key, d).value;
      assert Valid(rows[i], key, d) && Valid(rows[j], key, d);
    }
  }

  /** The rate a task is billed at: that of the task's winning row; without a valid one, that of the project's row for
      no task; without either, none. */
  lemma BillableIs(rows: seq<RateRow<BillableKey>>, project: int, task: Option<int>, d: Date)
    ensures var own, default := BillableKey(project, task), BillableKey(project, None);
      && (BillableOn(rows, project, task, d).None? <==> NoneValid(rows, own, d) && NoneValid(rows, default, d))
      && (forall i :: Wins(rows, own, d, i) ==> BillableOn(rows, project, task, d) == Some(rows[i].rate))
      && (NoneValid(rows, own, d) ==>
            forall i :: Wins(rows, default, d, i) ==> BillableOn(rows, project, task, d) == Some(rows[i].rate))
  {
    RateIs(rows, BillableKey(project, task), d);
    RateIs(rows, BillableKey(project, None), d);
  }

  /** A new default rate shows exactly where no rate of the task's own is in force; a new task rate shows on
      that task alone; neither shows where a later-dated row of its own key answers. */
  lemma BillableAfterCreate(rows: seq<RateRow<BillableKey>>, r: RateRow<BillableKey>, project: int, task: Option<int>,
                            d: Date)
    requires r.to.None? && Accepted(rows, r)
    ensures BillableOn(Create(rows, r), project, task, d) ==
      if r.from > d || Overshadowed(rows, r, d) then BillableOn(rows, project, task, d)
      else if r.key == BillableKey(project, task) then Some(r.rate)
      else if r.key == BillableKey(project, None) && RateOn(rows, BillableKey(project, task), d).None? then Some(r.rate)
      else BillableOn(rows, project, task, d)
  {
    CreateIsStep(rows, r, BillableKey(project, task), d);
    CreateIsStep(rows, r, BillableKey(project, None), d);
  }
}
