/** Audit inserts that overlap. The trigger reads the last row's hash under FOR UPDATE, which locks that row but
    reads nothing anew once the lock is granted, and locks nothing while the table is empty; so between an insert's
    read and its row other inserts may commit. */
module AuditRaces {
  import opened Tables
  import opened AuditChain

  type InsertId = nat

  /** An insert that has read the tip, when the log had `seen` rows. */
  datatype Insert = Insert(content: Content, tip: Hash, seen: nat)

  datatype World = World(rows: seq<LogRow>, open: map<InsertId, Insert>)

  datatype Event = ReadTip(c: InsertId, content: Content) | Put(c: InsertId) | Abort(c: InsertId)

  function TipHash(rows: seq<LogRow>): Hash {
    if rows == [] then Genesis else LastHash(rows)
  }

  /** One event; one that is not enabled does nothing. Ids come in the order of the rows. */
  function Next(w: World, ev: Event, secret: string): World {
    match ev
    case ReadTip(c, content) =>
      if c in w.open then w else w.(open := w.open[c := Insert(content, TipHash(w.rows), |w.rows|)])
    case Put(c) =>
      if c !in w.open then w
      else
        var i := w.open[c];
        World(w.rows + [LogRow(|w.rows| + 1, i.content, Some(i.tip), Hmac(secret, i.tip, i.content))], w.open - {c})
    case Abort(c) => w.(open := w.open - {c})
  }

  /** The log after a sequence of events, from an empty one. */
  function After(evs: seq<Event>, secret: string): World {
    if evs == [] then World([], map[]) else Next(After(evs[..|evs| - 1], secret), evs[|evs| - 1], secret)
  }

  /** No insert commits between another's read and its row. */
  predicate Serial(evs: seq<Event>, secret: string) {
    evs == [] || (
      var w, ev := After(evs[..|evs| - 1], secret), evs[|evs| - 1];
      Serial(evs[..|evs| - 1], secret) && (ev.Put? && ev.c in w.open ==> w.open[ev.c].seen == |w.rows|))
  }

  /** Every open insert has the hash of the row that was last when it read. */
  predicate TipsRead(w: World) {
    forall c :: c in w.open ==> w.open[c].seen <= |w.rows| && w.open[c].tip == TipHash(w.rows[..w.open[c].seen])
  }

  lemma EventKeepsTips(w: World, ev: Event, secret: string)
    requires TipsRead(w)
    ensures TipsRead(Next(w, ev, secret))
  {
    var after := Next(w, ev, secret);
    assert w.rows[..|w.rows|] == w.rows;
    forall c | c in after.open && c in w.open ensures after.rows[..w.open[c].seen] == w.rows[..w.open[c].seen] { }
  }

  lemma {:induction false} TipsAreRead(evs: seq<Event>, secret: string)
    ensures TipsRead(After(evs, secret))
  {
    if evs != [] {
      TipsAreRead(evs[..|evs| - 1], secret);
      EventKeepsTips(After(evs[..|evs| - 1], secret), evs[|evs| - 1], secret);
    }
  }

  /** Along a passing log no earlier tip has the hash of the last. */
  lemma EarlierTipDiffers(rows: seq<LogRow>, n: nat, secret: string)
    requires Passes(rows, secret) && n < |rows|
    ensures TipHash(rows[..n]) != LastHash(rows)
  {
    PassesIff(rows, secret);
    if n == 0 {
      Deepens(rows, secret);
    } else {
      var rest := rows[n - 1..];
      StretchPasses(rows, n - 1, |rows|, secret);
      assert rows[n - 1..|rows|] == rest;
      Deepens(rest, secret);
      PassesIff(rest, secret);
      assert Depth(rest[0].rowHash) == Depth(PrevText(rest[0])) + 1;
      assert TipHash(rows[..n]) == rest[0].rowHash;
    }
  }

  lemma PutPassesIff(rows: seq<LogRow>, r: LogRow, secret: string)
    requires r.rowHash == Expected(r, secret)
    ensures Passes(rows + [r], secret) <==> Passes(rows, secret) && (rows == [] || PrevText(r) == LastHash(rows))
  {
    assert (rows + [r])[..|rows|] == rows;
    if rows != [] && Passes(rows, secret) { PassesIff(rows, secret); }
  }

  /** In every interleaving, the log passes the scan exactly when no insert committed between another's read of the tip
      and its row: an untampered log fails as soon as two records overlap. */
  lemma {:induction false} PassesIffSerial(evs: seq<Event>, secret: string)
    ensures Passes(After(evs, secret).rows, secret) <==> Serial(evs, secret)
  {
    if evs != [] {
      var front, ev := evs[..|evs| - 1], evs[|evs| - 1];
      var w := After(front, secret);
      PassesIffSerial(front, secret);
      TipsAreRead(front, secret);
      if ev.Put? && ev.c in w.open {
        var i := w.open[ev.c];
        var r := LogRow(|w.rows| + 1, i.content, Some(i.tip), Hmac(secret, i.tip, i.content));
        PutPassesIff(w.rows, r, secret);
        assert w.rows[..|w.rows|] == w.rows;
        if i.seen < |w.rows| && Passes(w.rows, secret) { EarlierTipDiffers(w.rows, i.seen, secret); }
      }
    }
  }

  lemma Then(evs: seq<Event>, ev: Event, secret: string)
    ensures After(evs + [ev], secret) == Next(After(evs, secret), ev, secret)
  {
    assert (evs + [ev])[..|evs|] == evs;
  }

  /** An insert with nothing between its read and its row records its content as `Record` does. */
  lemma InsertAloneRecords(w: World, c: InsertId, content: Content, secret: string)
    requires c !in w.open
    ensures var rows := Next(Next(w, ReadTip(c, content), secret), Put(c), secret).rows;
      && |rows| == |w.rows| + 1 && rows[..|w.rows|] == w.rows
      && Recorded(w.rows, rows[|w.rows|], secret) && rows[|w.rows|].content == content
  {
    var rows := Next(Next(w, ReadTip(c, content), secret), Put(c), secret).rows;
    assert rows[..|w.rows|] == w.rows;
  }

  /** An insert that was rolled back writes nothing any more. */
  lemma AbortedPutsNothing(w: World, c: InsertId, secret: string)
    ensures var after := Next(w, Abort(c), secret);
      after.rows == w.rows && after.open == w.open - {c} && Next(after, Put(c), secret) == after
  {
  }

  /** Two first records at once: both take the genesis hash. */
  lemma TwoFirstRecords(a: Content, b: Content, secret: string)
    ensures var evs := [ReadTip(0, a)] + [ReadTip(1, b)] + [Put(0)] + [Put(1)];
      var first, second := Hmac(secret, Genesis, a), Hmac(secret, Genesis, b);
      var rows := After(evs, secret).rows;
      && rows == [LogRow(1, a, Some(Genesis), first), LogRow(2, b, Some(Genesis), second)]
      && FirstBreak(rows) == Some(2)
  {
    var e1 := [ReadTip(0, a)];
    var e2 := e1 + [ReadTip(1, b)];
    var e3 := e2 + [Put(0)];
    assert [] + e1 == e1;
    Then([], ReadTip(0, a), secret);
    Then(e1, ReadTip(1, b), secret);
    Then(e2, Put(0), secret);
    Then(e3, Put(1), secret);
    var rows := After(e3 + [Put(1)], secret).rows;
    BreakOneMore(rows, 0);
    BreakOneMore(rows, 1);
    assert rows[..0] == [] && rows[..2] == rows;
  }
}
