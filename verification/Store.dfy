/** The `events` table (migrations/001_create_events.sql): a ReplacingMergeTree ordered by the
    dedup key, versioned by `_inserted_at` and partitioned by month, read with FINAL; and the
    batch insert of internal/repository/insert.go. */
module Stores {
  import opened Results
  import opened Events

  datatype Row = Row(event: Event, insertedAt: nat)

  /** An immutable data part, as one insert or one merge writes it. */
  type Part = seq<Row>

  type Table = multiset<Part>

  /** `toYYYYMM(toDateTime(seconds))`: any function of the seconds will do here. */
  type Calendar = nat -> int

  function RowKey(r: Row): Key {
    KeyOf(r.event)
  }

  function Rows(t: Table): set<Row> {
    set p, r | p in t && r in p :: r
  }

  function Keys(rows: set<Row>): set<Key> {
    set r <- rows :: RowKey(r)
  }

  function PartitionOf(cal: Calendar, r: Row): int {
    cal(r.event.timestampMs / 1000)
  }

  /** `view` is what FINAL may return for `rows`: of the rows sharing a key it keeps one with the
      largest version. Which one, among equal versions, is left open. */
  ghost predicate IsFinal(view: set<Row>, rows: set<Row>) {
    && view <= rows
    && Keys(rows) <= Keys(view)
    && (forall v, w :: v in view && w in view && RowKey(v) == RowKey(w) ==> v == w)
    && (forall v, r :: v in view && r in rows && RowKey(v) == RowKey(r) ==> r.insertedAt <= v.insertedAt)
  }

  ghost predicate Newest(r: Row, rows: set<Row>) {
    r in rows && forall s <- rows :: RowKey(s) == RowKey(r) ==> s.insertedAt <= r.insertedAt
  }

  lemma {:induction false} NewestExists(rows: set<Row>, k: Key)
    requires k in Keys(rows)
    ensures exists r :: Newest(r, rows) && RowKey(r) == k
  {
    var x :| x in rows && RowKey(x) == k;
    var rest := rows - {x};
    if k in Keys(rest) {
      NewestExists(rest, k);
      var r :| Newest(r, rest) && RowKey(r) == k;
      assert Newest(if r.insertedAt < x.insertedAt then x else r, rows);
    } else {
      forall s <- rows ensures RowKey(s) == k ==> s == x {
        assert s != x ==> RowKey(s) in Keys(rest);
      }
      assert Newest(x, rows);
    }
  }

  ghost function NewestOf(rows: set<Row>, k: Key): (r: Row)
    requires k in Keys(rows)
    ensures Newest(r, rows) && RowKey(r) == k
  {
    NewestExists(rows, k);
    var r :| Newest(r, rows) && RowKey(r) == k;
    r
  }

  /** Every table has a FINAL view. */
  lemma FinalExists(rows: set<Row>)
    ensures exists view :: IsFinal(view, rows)
  {
    var view := set k <- Keys(rows) :: NewestOf(rows, k);
    forall k <- Keys(rows) ensures k in Keys(view) {
      assert NewestOf(rows, k) in view;
    }
    assert IsFinal(view, rows);
  }

  /** FINAL shows every key once. */
  lemma FinalKeys(view: set<Row>, rows: set<Row>)
    requires IsFinal(view, rows)
    ensures Keys(view) == Keys(rows)
  {
  }

  /** Of two rows with one key FINAL shows the one with the larger version. */
  lemma FinalKeepsNewer(x: Row, y: Row, view: set<Row>)
    requires RowKey(x) == RowKey(y) && x.insertedAt < y.insertedAt
    ensures IsFinal(view, {x, y}) <==> view == {y}
  {
    assert RowKey(y) in Keys({x, y}) && Keys({x, y}) == {RowKey(y)} && Keys({y}) == {RowKey(y)};
    if IsFinal(view, {x, y}) {
      assert y in view by {
        var r :| r in view && RowKey(r) == RowKey(y);
        assert r == x || r == y;
      }
      assert x !in view;
    }
  }

  // ----- partitions -----

  function Slice(cal: Calendar, rows: set<Row>, p: int): set<Row> {
    set r <- rows | PartitionOf(cal, r) == p
  }

  ghost predicate FinalPerPartition(cal: Calendar, view: set<Row>, rows: set<Row>) {
    forall p :: IsFinal(Slice(cal, view, p), Slice(cal, rows, p))
  }

  lemma FinalSlice(cal: Calendar, view: set<Row>, rows: set<Row>, p: int)
    requires IsFinal(view, rows)
    ensures IsFinal(Slice(cal, view, p), Slice(cal, rows, p))
  {
    var v, r := Slice(cal, view, p), Slice(cal, rows, p);
    forall k <- Keys(r) ensures k in Keys(v) {
      var x :| x in r && RowKey(x) == k;
      assert RowKey(x) in Keys(rows);
      var y :| y in view && RowKey(y) == k;
      assert y in v;
    }
  }

  lemma SameKeySamePartition(cal: Calendar, r: Row, s: Row)
    requires RowKey(r) == RowKey(s)
    ensures PartitionOf(cal, r) == PartitionOf(cal, s)
  {
  }

  lemma FinalFromSlices(cal: Calendar, view: set<Row>, rows: set<Row>)
    requires FinalPerPartition(cal, view, rows)
    ensures IsFinal(view, rows)
  {
    forall v <- view ensures v in rows {
      var p := PartitionOf(cal, v);
      assert IsFinal(Slice(cal, view, p), Slice(cal, rows, p)) && v in Slice(cal, view, p);
    }
    forall k <- Keys(rows) ensures k in Keys(view) {
      var r :| r in rows && RowKey(r) == k;
      var p := PartitionOf(cal, r);
      assert IsFinal(Slice(cal, view, p), Slice(cal, rows, p)) && r in Slice(cal, rows, p);
      assert k in Keys(Slice(cal, view, p));
    }
    forall v, r | v in view && r in rows && RowKey(v) == RowKey(r)
      ensures r.insertedAt <= v.insertedAt && (r in view ==> v == r)
    {
      SameKeySamePartition(cal, v, r);
      var p := PartitionOf(cal, v);
      assert IsFinal(Slice(cal, view, p), Slice(cal, rows, p));
      assert v in Slice(cal, view, p) && r in Slice(cal, rows, p);
    }
  }

  /** The month is a function of the key, so removing duplicates month by month is removing
      them globally. */
  lemma PartitionwiseFinalIff(cal: Calendar, view: set<Row>, rows: set<Row>)
    ensures IsFinal(view, rows) <==> FinalPerPartition(cal, view, rows)
  {
    if IsFinal(view, rows) {
      forall p ensures IsFinal(Slice(cal, view, p), Slice(cal, rows, p)) { FinalSlice(cal, view, rows, p); }
    } else if FinalPerPartition(cal, view, rows) {
      FinalFromSlices(cal, view, rows);
    }
  }

  // ----- background merges -----

  ghost predicate OnePartition(cal: Calendar, t: Table) {
    forall r, s :: r in Rows(t) && s in Rows(t) ==> PartitionOf(cal, r) == PartitionOf(cal, s)
  }

  function PartRows(p: Part): set<Row> {
    set r <- p
  }

  /** Some parts of one partition are replaced by one part holding their newest rows. */
  ghost predicate MergeStep(cal: Calendar, t: Table, t': Table) {
    exists chosen: Table, merged: Part ::
      chosen <= t && OnePartition(cal, chosen) && IsFinal(PartRows(merged), Rows(chosen))
      && t' == t - chosen + multiset{merged}
  }

  lemma RowsOfMerge(t: Table, chosen: Table, merged: Part)
    requires chosen <= t
    ensures Rows(t) == Rows(t - chosen) + Rows(chosen)
    ensures Rows(t - chosen + multiset{merged}) == Rows(t - chosen) + PartRows(merged)
  {
    var rest := t - chosen;
    forall r ensures r in Rows(t) <==> r in Rows(rest) + Rows(chosen) {
      if r in Rows(t) {
        var p :| p in t && r in p;
        assert p in rest || p in chosen;
      }
    }
  }

  lemma KeysOfSum(s: set<Row>, t: set<Row>)
    ensures Keys(s + t) == Keys(s) + Keys(t)
  {
  }

  lemma FinalOfThinned(view: set<Row>, thinned: set<Row>, rest: set<Row>, kept: set<Row>, chosen: set<Row>)
    requires thinned == rest + kept && IsFinal(kept, chosen) && IsFinal(view, thinned)
    ensures IsFinal(view, rest + chosen)
  {
    KeysOfSum(rest, chosen);
    KeysOfSum(rest, kept);
    forall v, r | v in view && r in chosen && RowKey(v) == RowKey(r) ensures r.insertedAt <= v.insertedAt {
      assert RowKey(r) in Keys(kept);
      var k :| k in kept && RowKey(k) == RowKey(r);
    }
  }

  /** A merge never changes what FINAL may show, but for the choice among equal versions. */
  lemma MergeKeepsFinal(cal: Calendar, t: Table, t': Table, view: set<Row>)
    requires MergeStep(cal, t, t') && IsFinal(view, Rows(t'))
    ensures Rows(t') <= Rows(t) && Keys(Rows(t')) == Keys(Rows(t)) && IsFinal(view, Rows(t))
  {
    var chosen: Table, merged: Part :|
      chosen <= t && OnePartition(cal, chosen) && IsFinal(PartRows(merged), Rows(chosen))
      && t' == t - chosen + multiset{merged};
    RowsOfMerge(t, chosen, merged);
    FinalOfThinned(view, Rows(t'), Rows(t - chosen), PartRows(merged), Rows(chosen));
    FinalKeys(view, Rows(t));
    FinalKeys(view, Rows(t'));
  }

  ghost predicate MergeRun(cal: Calendar, ts: seq<Table>) {
    ts != [] && forall i :: 0 <= i < |ts| - 1 ==> MergeStep(cal, ts[i], ts[i + 1])
  }

  /** However many merges have run in the background, and in whatever order, FINAL still shows
      a choice it could have made before them. */
  lemma {:induction false} MergesKeepFinal(cal: Calendar, ts: seq<Table>, view: set<Row>)
    requires MergeRun(cal, ts) && IsFinal(view, Rows(ts[|ts| - 1]))
    ensures Keys(Rows(ts[|ts| - 1])) == Keys(Rows(ts[0])) && IsFinal(view, Rows(ts[0]))
  {
    if |ts| == 1 {
    } else {
      var n := |ts| - 1;
      MergeKeepsFinal(cal, ts[n - 1], ts[n], view);
      assert MergeRun(cal, ts[..n]) && ts[..n][n - 1] == ts[n - 1];
      MergesKeepFinal(cal, ts[..n], view);
    }
  }

  // ----- inserts -----

  /** Rows written for a batch: each is one of its events. */
  ghost predicate Landed(parts: Table, batch: seq<Event>) {
    forall r <- Rows(parts) :: r.event in batch
  }

  /** Nothing of the batch is missing, up to duplicates the insert itself removed. */
  ghost predicate Complete(parts: Table, batch: seq<Event>) {
    forall e <- batch :: KeyOf(e) in Keys(Rows(parts))
  }

  lemma RowsOfSum(s: Table, t: Table)
    ensures Rows(s + t) == Rows(s) + Rows(t)
  {
    forall r ensures r in Rows(s + t) <==> r in Rows(s) + Rows(t) {
      if r in Rows(s + t) {
        var p :| p in s + t && r in p;
        assert p in s || p in t;
      }
    }
  }

  /** What the database does with one prepared batch: which call fails, and which rows an
      acknowledged or failed Send leaves behind. */
  datatype DriverScript = DriverScript(prepareFails: bool, appendFailsAt: Option<nat>, landed: Table, sendFails: bool)

  /** The driver's promise for a batch holding `events`: no foreign rows, and an acknowledged
      Send lost nothing. A failed Send may have written any of the rows. */
  ghost predicate Honest(script: DriverScript, events: seq<Event>) {
    Landed(script.landed, events) && (!script.sendFails ==> Complete(script.landed, events))
  }

  predicate Sends(script: DriverScript, n: nat) {
    n > 0 && !script.prepareFails && (script.appendFailsAt.None? || script.appendFailsAt.value >= n)
  }

  /** Flush returns nil. */
  predicate FlushSucceeds(script: DriverScript, n: nat) {
    n == 0 || (Sends(script, n) && !script.sendFails)
  }

  /** Every key of the batch is in the table. */
  ghost predicate Persisted(t: Table, batch: seq<Event>) {
    forall e <- batch :: KeyOf(e) in Keys(Rows(t))
  }

  /** What one attempt leaves in the table: on success every key of the batch, in any case no
      foreign row and everything that was there. */
  lemma AttemptWrites(t: Table, batch: seq<Event>, script: DriverScript)
    requires Honest(script, batch)
    ensures var t' := t + if Sends(script, |batch|) then script.landed else multiset{};
      && (FlushSucceeds(script, |batch|) ==> Persisted(t', batch))
      && (forall r <- Rows(t') :: r in Rows(t) || r.event in batch)
      && Rows(t) <= Rows(t')
  {
    RowsOfSum(t, script.landed);
    KeysOfSum(Rows(t), Rows(script.landed));
  }

  datatype FlushError = PrepareFailed | AppendFailed | SendFailed

  /** The driver's batch object. */
  class InsertBatch {
    var rows: seq<Event>

    constructor ()
      ensures rows == []
    {
      rows := [];
    }

    method Append(e: Event, fails: bool) returns (ok: bool)
      modifies this
      ensures ok == !fails
      ensures rows == if ok then old(rows) + [e] else old(rows)
    {
      ok := !fails;
      if ok { rows := rows + [e]; }
    }
  }

  class Repository {
    var table: Table

    constructor ()
      ensures table == multiset{}
    {
      table := multiset{};
    }

    /** Writes what the database makes of the appended rows. */
    method Send(batch: InsertBatch, script: DriverScript) returns (ok: bool)
      requires Honest(script, batch.rows)
      modifies this
      ensures ok == !script.sendFails && table == old(table) + script.landed
    {
      table := table + script.landed;
      ok := !script.sendFails;
    }

    /** One attempt at writing a batch. Preparing and appending are all-or-nothing; only Send
        can fail after rows have landed. */
    method Flush(events: seq<Event>, script: DriverScript) returns (err: Option<FlushError>)
      requires Honest(script, events)
      modifies this
      ensures err.None? <==> FlushSucceeds(script, |events|)
      ensures table == old(table) + if Sends(script, |events|) then script.landed else multiset{}
      ensures err.None? ==> Persisted(table, events)
      ensures |events| == 0 ==> err.None? && table == old(table)
      ensures |events| > 0 ==>
        var appends := script.appendFailsAt.None? || script.appendFailsAt.value >= |events|;
        && (err.None? <==> !script.prepareFails && appends && !script.sendFails)
        && (err == Some(PrepareFailed) <==> script.prepareFails)
        && (err == Some(AppendFailed) <==> !script.prepareFails && !appends)
        && (err == Some(SendFailed) <==> !script.prepareFails && appends && script.sendFails)
        && table == old(table) + if !script.prepareFails && appends then script.landed else multiset{}
    {
      if |events| == 0 {
        return None;
      }
      if script.prepareFails {
        return Some(PrepareFailed);
      }
      var batch := new InsertBatch();
      for i := 0 to |events|
        invariant batch.rows == events[..i] && fresh(batch)
        invariant script.appendFailsAt.Some? ==> script.appendFailsAt.value >= i
        invariant table == old(table)
      {
        var ok := batch.Append(events[i], script.appendFailsAt == Some(i));
        if !ok {
          return Some(AppendFailed);
        }
      }
      assert batch.rows == events;
      AttemptWrites(table, events, script);
      var ok := Send(batch, script);
      err := if ok then None else Some(SendFailed);
    }
  }

  /** Writing rows that are already there, or rows in another order, leaves the keys alone. */
  lemma ReinsertKeepsKeys(t: Table, parts: Table, view: set<Row>, view': set<Row>)
    requires Keys(Rows(parts)) <= Keys(Rows(t)) && IsFinal(view, Rows(t)) && IsFinal(view', Rows(t + parts))
    ensures Keys(view') == Keys(view)
  {
    RowsOfSum(t, parts);
    KeysOfSum(Rows(t), Rows(parts));
    FinalKeys(view, Rows(t));
    FinalKeys(view', Rows(t + parts));
  }
}
