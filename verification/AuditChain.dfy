/** The audit log's hash chain: the append, the daily scan in batches, its linkage-only fallback, and what a
    passing scan proves. */
module AuditChain {
  import opened Tables

  /** The columns that go into the hash, in canonical form; the row id does not. */
  datatype Content = Content(actorId: Option<int>, action: string, entityType: Option<string>, entityId: Option<string>,
                             before: Option<string>, after: Option<string>, reason: Option<string>, createdAt: Instant)

  /** Hash texts. HMAC is taken to be injective, so hashes are finite terms; whoever tampers may also write any
      other text. `Blank` is the empty string, `Genesis` the 64 zeros. */
  datatype Hash = Blank | Genesis | Hmac(secret: string, prev: Hash, content: Content) | OtherText(text: string)

  datatype LogRow = LogRow(id: int, content: Content, prevHash: Option<Hash>, rowHash: Hash)

  /** COALESCE(prev_row_hash, ''). */
  function PrevText(r: LogRow): Hash {
    if r.prevHash.None? then Blank else r.prevHash.value
  }

  function Expected(r: LogRow, secret: string): Hash {
    Hmac(secret, PrevText(r), r.content)
  }

  predicate Ascending(rows: seq<LogRow>) {
    forall i, j :: 0 <= i < j < |rows| ==> rows[i].id < rows[j].id
  }

  // --- one pass ----------------------------------------------------------------------------

  /** The ids with a wrong hash, in id order. */
  function Mismatches(rows: seq<LogRow>, secret: string): seq<int> {
    if rows == [] then []
    else
      var front, r := rows[..|rows| - 1], rows[|rows| - 1];
      Mismatches(front, secret) + if r.rowHash != Expected(r, secret) then [r.id] else []
  }

  /** The first id whose previous hash is not the hash of the row before it. The very first row has no row
      before it, and a blank hash is taken for none. */
  function FirstBreak(rows: seq<LogRow>): Option<int> {
    if rows == [] then None
    else
      var front, r := rows[..|rows| - 1], rows[|rows| - 1];
      if FirstBreak(front).Some? then FirstBreak(front)
      else if LastHash(front) != Blank && PrevText(r) != LastHash(front) then Some(r.id)
      else None
  }

  function LastHash(rows: seq<LogRow>): Hash {
    if rows == [] then Blank else rows[|rows| - 1].rowHash
  }

  lemma {:induction false} BreakStays(rows: seq<LogRow>, n: nat)
    requires n <= |rows| && FirstBreak(rows[..n]).Some?
    ensures FirstBreak(rows) == FirstBreak(rows[..n])
    decreases |rows|
  {
    if n < |rows| {
      assert rows[..|rows| - 1][..n] == rows[..n];
      BreakStays(rows[..|rows| - 1], n);
    } else {
      assert rows[..n] == rows;
    }
  }

  /** One row further. */
  lemma BreakOneMore(rows: seq<LogRow>, n: nat)
    requires n < |rows|
    ensures LastHash(rows[..n + 1]) == rows[n].rowHash
    ensures FirstBreak(rows[..n + 1]) ==
      if FirstBreak(rows[..n]).Some? then FirstBreak(rows[..n])
      else if LastHash(rows[..n]) != Blank && PrevText(rows[n]) != LastHash(rows[..n]) then Some(rows[n].id)
      else None
  {
    assert rows[..n + 1][..n] == rows[..n];
  }

  lemma MismatchesOneMore(rows: seq<LogRow>, n: nat, secret: string)
    requires n < |rows|
    ensures Mismatches(rows[..n + 1], secret)
      == Mismatches(rows[..n], secret) + if rows[n].rowHash != Expected(rows[n], secret) then [rows[n].id] else []
  {
    assert rows[..n + 1][..n] == rows[..n];
  }

  // --- the scan ----------------------------------------------------------------------------

  /** The rows after `lastId`, by id. */
  function RowsAfter(table: seq<LogRow>, lastId: int): seq<LogRow> {
    if table == [] then []
    else if table[0].id > lastId then table
    else RowsAfter(table[1..], lastId)
  }

  /** SELECT ... WHERE id > lastId ORDER BY id LIMIT n. */
  function SelectBatch(table: seq<LogRow>, lastId: int, limit: nat): seq<LogRow> {
    var rows := RowsAfter(table, lastId);
    if |rows| <= limit then rows else rows[..limit]
  }

  /** In an id-ordered table, that is everything above the cursor and nothing else. */
  lemma {:induction false} RowsAfterIs(table: seq<LogRow>, lastId: int)
    requires Ascending(table)
    ensures Ascending(RowsAfter(table, lastId))
    ensures forall r :: r in RowsAfter(table, lastId) <==> r in table && r.id > lastId
  {
    if table != [] && table[0].id <= lastId {
      RowsAfterIs(table[1..], lastId);
    }
  }

  lemma {:induction false} RowsAfterLater(table: seq<LogRow>, lastId: int, n: nat)
    requires Ascending(table) && 0 < n <= |RowsAfter(table, lastId)|
    ensures RowsAfter(table, RowsAfter(table, lastId)[n - 1].id) == RowsAfter(table, lastId)[n..]
    ensures RowsAfter(table, lastId)[n - 1].id > lastId
  {
    var rows := RowsAfter(table, lastId);
    RowsAfterIs(table, lastId);
    assert rows[n - 1] in rows;
    if table[0].id > lastId {
      SkipTo(table, n);
    } else {
      RowsAfterLater(table[1..], lastId, n);
      assert rows[n - 1] in table;
      var i :| 0 <= i < |table| && table[i] == rows[n - 1];
      assert table[0].id <= rows[n - 1].id;
    }
  }

  lemma {:induction false} SkipTo(table: seq<LogRow>, n: nat)
    requires Ascending(table) && 0 < n <= |table|
    ensures RowsAfter(table, table[n - 1].id) == table[n..]
    decreases n
  {
    if n == 1 {
      assert table[1..] == [] || table[1].id > table[0].id;
    } else {
      SkipTo(table[1..], n - 1);
      assert table[1..][n - 1..] == table[n..];
    }
  }

  /** A batch is the next stretch of the rows, and empty only at their end. */
  lemma BatchIs(table: seq<LogRow>, lastId: int, limit: nat, rows: seq<LogRow>, n: nat)
    requires n <= |rows| && RowsAfter(table, lastId) == rows[n..] && limit >= 1
    ensures var batch := SelectBatch(table, lastId, limit);
      n + |batch| <= |rows| && (batch == [] <==> n == |rows|)
      && forall i :: 0 <= i < |batch| ==> batch[i] == rows[n + i]
  {
  }

  datatype Report = Report(mismatches: seq<int>, chainBreak: Option<int>, rowsChecked: nat, lastId: int)

  /** What one pass over the rows reports. */
  function OnePass(rows: seq<LogRow>, secret: string): Report {
    Report(Mismatches(rows, secret), FirstBreak(rows), |rows|, if rows == [] then 0 else rows[|rows| - 1].id)
  }

  /** The daily job. Whatever the batch size, the batched cursor scan visits each row above id 0 once, in id
      order, and reports what one pass reports. Without a usable secret it does not scan. */
  method Scan(table: seq<LogRow>, secret: string, batchSize: nat) returns (report: Option<Report>)
    requires Ascending(table) && batchSize >= 1
    ensures report == if |secret| < 32 then None else Some(OnePass(RowsAfter(table, 0), secret))
  {
    if |secret| < 32 { return None; }
    var lastId, prevHash, chainBreak, mismatches, rowsChecked := 0, Blank, None, [], 0;
    ghost var rows := RowsAfter(table, 0);
    assert rows[0..] == rows;
    while true
      invariant rowsChecked <= |rows|
      invariant RowsAfter(table, lastId) == rows[rowsChecked..]
      invariant Report(mismatches, chainBreak, rowsChecked, lastId) == OnePass(rows[..rowsChecked], secret)
      invariant prevHash == LastHash(rows[..rowsChecked])
      decreases |rows| - rowsChecked
    {
      BatchIs(table, lastId, batchSize, rows, rowsChecked);
      var batch := SelectBatch(table, lastId, batchSize);
      if |batch| == 0 { break; }
      ghost var start := rowsChecked;
      for i := 0 to |batch|
        invariant rowsChecked == start + i <= |rows|
        invariant start + |batch| <= |rows| && forall j :: 0 <= j < |batch| ==> batch[j] == rows[start + j]
        invariant Report(mismatches, chainBreak, rowsChecked, lastId) == OnePass(rows[..rowsChecked], secret)
        invariant prevHash == LastHash(rows[..rowsChecked])
      {
        var r := batch[i];
        assert r == rows[rowsChecked];
        BreakOneMore(rows, rowsChecked);
        MismatchesOneMore(rows, rowsChecked, secret);
        rowsChecked := rowsChecked + 1;
        if prevHash != Blank && PrevText(r) != prevHash && chainBreak.None? {
          chainBreak := Some(r.id);
        }
        if r.rowHash != Expected(r, secret) {
          mismatches := mismatches + [r.id];
        }
        prevHash, lastId := r.rowHash, r.id;
      }
      RowsAfterLater(table, 0, rowsChecked);
    }
    assert rows[..rowsChecked] == rows;
    report := Some(Report(mismatches, chainBreak, rowsChecked, lastId));
  }

  /** The fallback without hash recomputation stops at the same first break. */
  method ScanLinksOnly(table: seq<LogRow>, batchSize: nat) returns (mismatchAt: Option<int>)
    requires Ascending(table) && batchSize >= 1
    ensures mismatchAt == FirstBreak(RowsAfter(table, 0))
  {
    var lastId, prevHash, checked := 0, Blank, 0;
    ghost var rows := RowsAfter(table, 0);
    mismatchAt := None;
    assert rows[0..] == rows;
    while true
      invariant checked <= |rows| && mismatchAt.None?
      invariant RowsAfter(table, lastId) == rows[checked..]
      invariant FirstBreak(rows[..checked]) == None
      invariant prevHash == LastHash(rows[..checked])
      decreases |rows| - checked
    {
      BatchIs(table, lastId, batchSize, rows, checked);
      var batch := SelectBatch(table, lastId, batchSize);
      if |batch| == 0 { break; }
      ghost var start := checked;
      for i := 0 to |batch|
        invariant checked == start + i <= |rows| && mismatchAt.None?
        invariant start + |batch| <= |rows| && forall j :: 0 <= j < |batch| ==> batch[j] == rows[start + j]
        invariant FirstBreak(rows[..checked]) == None
        invariant prevHash == LastHash(rows[..checked])
        invariant checked > start ==> lastId == rows[checked - 1].id
      {
        var r := batch[i];
        assert r == rows[checked];
        BreakOneMore(rows, checked);
        if prevHash != Blank && PrevText(r) != prevHash {
          mismatchAt := Some(r.id);
          BreakStays(rows, checked + 1);
          return;
        }
        prevHash, lastId, checked := r.rowHash, r.id, checked + 1;
      }
      RowsAfterLater(table, 0, checked);
    }
    assert rows[..checked] == rows;
  }

  // --- appending ---------------------------------------------------------------------------

  /** The row the BEFORE INSERT trigger makes of an insert. */
  function NextRow(rows: seq<LogRow>, id: int, content: Content, secret: string): LogRow {
    var prev := if rows == [] then Genesis else LastHash(rows);
    LogRow(id, content, Some(prev), Hmac(secret, prev, content))
  }

  /** A row put after `rows`: it names the hash of the last of them, or of none, and is hashed over that and its own
      content. */
  predicate Recorded(rows: seq<LogRow>, r: LogRow, secret: string) {
    var prev := if |rows| == 0 then Genesis else rows[|rows| - 1].rowHash;
    r.prevHash == Some(prev) && r.rowHash == Hmac(secret, prev, r.content)
  }

  class AuditLog {
    var rows: seq<LogRow>
    var nextId: int

    ghost predicate Valid()
      reads this
    {
      && nextId >= 1 && Ascending(rows)
      && (forall i :: 0 <= i < |rows| ==> 0 < rows[i].id < nextId)
    }

    constructor ()
      ensures Valid() && rows == []
    {
      rows, nextId := [], 1;
    }

    /** record: the trigger refuses a short secret, and is the sole author of both hashes. */
    method Record(content: Content, secret: string) returns (ok: bool)
      requires Valid()
      modifies this
      ensures Valid() && (ok <==> |secret| >= 32) && (!ok ==> rows == old(rows) && nextId == old(nextId))
      ensures ok ==>
        && |rows| == |old(rows)| + 1 && rows[..|rows| - 1] == old(rows) && nextId == old(nextId) + 1
        && Recorded(old(rows), rows[|rows| - 1], secret)
        && rows[|rows| - 1].id == old(nextId) && rows[|rows| - 1].content == content
      ensures Appended(old(rows), secret) ==> Appended(rows, secret)
    {
      if |secret| < 32 { return false; }
      assert (rows + [NextRow(rows, nextId, content, secret)])[..|rows|] == rows;
      rows, nextId := rows + [NextRow(rows, nextId, content, secret)], nextId + 1;
      return true;
    }
  }

  /** A log made of appends alone. */
  ghost predicate Appended(rows: seq<LogRow>, secret: string) {
    rows == [] || (
      var front, r := rows[..|rows| - 1], rows[|rows| - 1];
      Appended(front, secret) && Recorded(front, r, secret))
  }

  predicate Passes(rows: seq<LogRow>, secret: string) {
    Mismatches(rows, secret) == [] && FirstBreak(rows).None?
  }

  /** A scan passes exactly when every hash is right and every row names its predecessor's hash. */
  lemma {:induction false} PassesIff(rows: seq<LogRow>, secret: string)
    ensures Passes(rows, secret) <==>
      && (forall i :: 0 <= i < |rows| ==> rows[i].rowHash == Expected(rows[i], secret))
      && (forall i :: 0 < i < |rows| ==> PrevText(rows[i]) == rows[i - 1].rowHash)
  {
    if rows != [] {
      var front, r := rows[..|rows| - 1], rows[|rows| - 1];
      PassesIff(front, secret);
      if forall i :: 0 <= i < |rows| ==> rows[i].rowHash == Expected(rows[i], secret) {
        forall i | 0 <= i < |front| ensures front[i].rowHash == Expected(front[i], secret) {
          assert front[i] == rows[i];
        }
      }
      if Passes(front, secret) {
        assert forall i :: 0 <= i < |front| ==> rows[i] == front[i];
        if front != [] { assert LastHash(front) == Expected(front[|front| - 1], secret); }
      }
    }
  }

  /** Every log built only by appends passes. */
  lemma {:induction false} AppendsPass(rows: seq<LogRow>, secret: string)
    requires Appended(rows, secret)
    ensures Passes(rows, secret)
  {
    if rows != [] {
      AppendsPass(rows[..|rows| - 1], secret);
    }
  }

  /** The row's hash is not that of its content under its previous hash, blank if it has none. */
  predicate Wrong(r: LogRow, secret: string) {
    r.rowHash != Hmac(secret, if r.prevHash.Some? then r.prevHash.value else Blank, r.content)
  }

  /** Row `i` does not name the hash of the row before it, which is not blank. */
  predicate Breaks(rows: seq<LogRow>, i: int)
    requires 0 < i < |rows|
  {
    rows[i - 1].rowHash != Blank
      && rows[i - 1].rowHash != if rows[i].prevHash.Some? then rows[i].prevHash.value else Blank
  }

  predicate FirstBreakAt(rows: seq<LogRow>, i: int) {
    0 < i < |rows| && Breaks(rows, i) && forall j :: 0 < j < i ==> !Breaks(rows, j)
  }

  predicate WrongId(rows: seq<LogRow>, id: int, secret: string) {
    exists i :: 0 <= i < |rows| && rows[i].id == id && Wrong(rows[i], secret)
  }

  lemma WrongOneMore(rows: seq<LogRow>, id: int, secret: string)
    requires rows != []
    ensures WrongId(rows, id, secret) <==>
      WrongId(rows[..|rows| - 1], id, secret) || (rows[|rows| - 1].id == id && Wrong(rows[|rows| - 1], secret))
  {
    var front := rows[..|rows| - 1];
    forall i | 0 <= i < |front| ensures front[i] == rows[i] { }
    if i :| 0 <= i < |front| && front[i].id == id && Wrong(front[i], secret) { assert rows[i].id == id; }
  }

  lemma {:induction false} MismatchesAre(rows: seq<LogRow>, secret: string)
    ensures |Mismatches(rows, secret)| <= |rows|
    ensures forall id :: id in Mismatches(rows, secret) <==> WrongId(rows, id, secret)
    ensures var ids := Mismatches(rows, secret);
      Ascending(rows) ==> forall i, j :: 0 <= i < j < |ids| ==> ids[i] < ids[j]
  {
    if rows != [] {
      var front, r := rows[..|rows| - 1], rows[|rows| - 1];
      MismatchesAre(front, secret);
      forall id { WrongOneMore(rows, id, secret); }
      if Ascending(rows) {
        var before := Mismatches(front, secret);
        forall j | 0 <= j < |before| ensures before[j] < r.id {
          assert before[j] in before;
          var i :| 0 <= i < |front| && front[i].id == before[j] && Wrong(front[i], secret);
          assert rows[i].id < r.id;
        }
      }
    }
  }

  lemma {:induction false} BreakIs(rows: seq<LogRow>)
    ensures FirstBreak(rows).None? <==> forall i :: 0 < i < |rows| ==> !Breaks(rows, i)
    ensures FirstBreak(rows).Some? ==> exists i :: FirstBreakAt(rows, i) && rows[i].id == FirstBreak(rows).value
  {
    if rows != [] {
      var front, n := rows[..|rows| - 1], |rows| - 1;
      BreakIs(front);
      forall i | 0 < i < n ensures Breaks(front, i) <==> Breaks(rows, i) { }
      if FirstBreak(front).Some? {
        var i :| FirstBreakAt(front, i) && front[i].id == FirstBreak(front).value;
        assert FirstBreakAt(rows, i) && Breaks(rows, i);
      } else if n > 0 && Breaks(rows, n) {
        assert FirstBreakAt(rows, n);
      }
    }
  }

  /** What a report says: the ids whose hash is not that of their content under their previous hash, all of them and in
      order, and the first id that does not name a non-blank hash before it. */
  lemma ReportIs(rows: seq<LogRow>, secret: string)
    ensures var report := OnePass(rows, secret);
      && (forall id :: id in report.mismatches <==> WrongId(rows, id, secret)) && |report.mismatches| <= |rows|
      && (Ascending(rows) ==>
            forall i, j :: 0 <= i < j < |report.mismatches| ==> report.mismatches[i] < report.mismatches[j])
      && (report.chainBreak.None? <==> forall i :: 0 < i < |rows| ==> !Breaks(rows, i))
      && (report.chainBreak.Some? ==> exists i :: FirstBreakAt(rows, i) && rows[i].id == report.chainBreak.value)
      && report.rowsChecked == |rows| && report.lastId == if |rows| == 0 then 0 else rows[|rows| - 1].id
  {
    MismatchesAre(rows, secret);
    BreakIs(rows);
  }

  // --- tamper evidence ---------------------------------------------------------------------

  function Depth(h: Hash): nat {
    match h
    case Hmac(_, prev, _) => 1 + Depth(prev)
    case _ => 0
  }

  /** Along a passing log the hashes only get deeper. */
  lemma {:induction false} Deepens(rows: seq<LogRow>, secret: string)
    requires rows != [] && Passes(rows, secret)
    ensures Depth(LastHash(rows)) >= Depth(PrevText(rows[0])) + |rows|
  {
    PassesIff(rows, secret);
    if |rows| > 1 {
      var front := rows[..|rows| - 1];
      PassesIff(front, secret);
      Deepens(front, secret);
    }
  }

  /** Equal in everything the chain covers; ids are not hashed. */
  predicate SameRow(a: LogRow, b: LogRow) {
    a.content == b.content && PrevText(a) == PrevText(b) && a.rowHash == b.rowHash
  }

  predicate SameRows(a: seq<LogRow>, b: seq<LogRow>) {
    |a| == |b| && forall i :: 0 <= i < |a| ==> SameRow(a[i], b[i])
  }

  lemma NotOneAndMore(a: seq<LogRow>, b: seq<LogRow>, secret: string)
    requires |a| == 1 && |b| > 1 && Passes(a, secret) && Passes(b, secret)
    requires PrevText(a[0]) == PrevText(b[0])
    ensures LastHash(a) != LastHash(b)
  {
    PassesIff(a, secret);
    Deepens(b, secret);
  }

  /** Two passing logs that begin from the same previous hash and end in the same row hash are the same, row
      for row. */
  lemma {:induction false} EndsDetermineLog(a: seq<LogRow>, b: seq<LogRow>, secret: string)
    requires a != [] && b != [] && Passes(a, secret) && Passes(b, secret)
    requires PrevText(a[0]) == PrevText(b[0]) && LastHash(a) == LastHash(b)
    ensures SameRows(a, b)
    decreases |a|
  {
    PassesIff(a, secret);
    PassesIff(b, secret);
    if |a| == 1 && |b| > 1 {
      NotOneAndMore(a, b, secret);
    } else if |b| == 1 && |a| > 1 {
      NotOneAndMore(b, a, secret);
    } else if |a| > 1 {
      var fa, fb := a[..|a| - 1], b[..|b| - 1];
      PassesIff(fa, secret);
      PassesIff(fb, secret);
      EndsDetermineLog(fa, fb, secret);
      forall i | 0 <= i < |a| ensures SameRow(a[i], b[i]) {
        if i < |fa| { assert SameRow(fa[i], fb[i]); }
      }
    }
  }

  /** So whatever was changed between a log's two ends, the scan reports it. */
  lemma TamperingIsReported(original: seq<LogRow>, tampered: seq<LogRow>, secret: string)
    requires original != [] && tampered != [] && Passes(original, secret)
    requires PrevText(tampered[0]) == PrevText(original[0]) && LastHash(tampered) == LastHash(original)
    requires !SameRows(original, tampered)
    ensures Mismatches(tampered, secret) != [] || FirstBreak(tampered).Some?
  {
    if Passes(tampered, secret) { EndsDetermineLog(original, tampered, secret); }
  }

  /** Deleting rows from the middle is one such change. */
  lemma DeletionIsReported(original: seq<LogRow>, i: nat, j: nat, secret: string)
    requires Passes(original, secret) && 0 < i < j < |original|
    ensures !Passes(original[..i] + original[j..], secret)
  {
    var tampered := original[..i] + original[j..];
    assert |tampered| < |original|;
    TamperingIsReported(original, tampered, secret);
  }

  /** And so is exchanging two rows of the middle that differ. */
  lemma SwapIsReported(original: seq<LogRow>, i: nat, j: nat, secret: string)
    requires Passes(original, secret) && 0 < i < j < |original| - 1 && !SameRow(original[i], original[j])
    ensures !Passes(original[i := original[j]][j := original[i]], secret)
  {
    var tampered := original[i := original[j]][j := original[i]];
    assert !SameRow(original[i], tampered[i]);
    TamperingIsReported(original, tampered, secret);
  }

  /** The two ends must be known from elsewhere: any stretch of a passing log passes by itself, so rows cut off
      at either end go unreported. */
  lemma StretchPasses(rows: seq<LogRow>, i: nat, j: nat, secret: string)
    requires Passes(rows, secret) && i <= j <= |rows|
    ensures Passes(rows[i..j], secret)
  {
    PassesIff(rows, secret);
    PassesIff(rows[i..j], secret);
  }
}
