/** internal/repository/query.go: what the totals query and the four group-by queries over
    `events FINAL` count, the naive counts over a log of accepted events they should agree
    with, and the method that reads the rows of both queries. */
module Metrics {
  import opened Arithmetic
  import opened Results
  import opened Events
  import opened Stores

  datatype GroupBy = NoGroup | ByChannel | ByCampaign | ByHour | ByDay | Unsupported(name: string)

  datatype Params = Params(eventName: string, from: UInt64, to: UInt64, groupBy: GroupBy)

  /** A group is named by a string column, or by the number of its UTC hour or day. */
  datatype GroupKey = Name(name: string) | Bucket(number: nat)

  function GroupOf(dim: GroupBy, e: Event): GroupKey {
    match dim
    case ByChannel => Name(e.channel)
    case ByCampaign => Name(e.campaignId)
    case ByHour => Bucket(e.timestampMs / 1000 / 3600)
    case ByDay => Bucket(e.timestampMs / 1000 / 86400)
    case _ => Name("")
  }

  predicate InHour(k: int, ms: int) {
    3_600_000 * k <= ms < 3_600_000 * (k + 1)
  }

  /** Both instants lie in one hour of UTC, counted from the epoch. */
  ghost predicate SameHour(d: int, e: int) {
    exists k :: InHour(k, d) && InHour(k, e)
  }

  predicate InDay(k: int, ms: int) {
    86_400_000 * k <= ms < 86_400_000 * (k + 1)
  }

  ghost predicate SameDay(d: int, e: int) {
    exists k :: InDay(k, d) && InDay(k, e)
  }

  lemma HourIs(ms: nat, k: int)
    ensures InHour(k, ms) <==> ms / 1000 / 3600 == k
  {
  }

  lemma DayIs(ms: nat, k: int)
    ensures InDay(k, ms) <==> ms / 1000 / 86400 == k
  {
  }

  /** When two events share a group, per dimension. */
  lemma SameGroupIff(d: Event, e: Event)
    ensures GroupOf(ByChannel, d) == GroupOf(ByChannel, e) <==> d.channel == e.channel
    ensures GroupOf(ByCampaign, d) == GroupOf(ByCampaign, e) <==> d.campaignId == e.campaignId
    ensures GroupOf(ByHour, d) == GroupOf(ByHour, e) <==> SameHour(d.timestampMs, e.timestampMs)
    ensures GroupOf(ByDay, d) == GroupOf(ByDay, e) <==> SameDay(d.timestampMs, e.timestampMs)
  {
    var m, n := d.timestampMs, e.timestampMs;
    forall k ensures InHour(k, m) <==> m / 1000 / 3600 == k { HourIs(m, k); }
    forall k ensures InHour(k, n) <==> n / 1000 / 3600 == k { HourIs(n, k); }
    forall k ensures InDay(k, m) <==> m / 1000 / 86400 == k { DayIs(m, k); }
    forall k ensures InDay(k, n) <==> n / 1000 / 86400 == k { DayIs(n, k); }
    assert InHour(m / 1000 / 3600, m) && InDay(m / 1000 / 86400, m);
  }

  /** The WHERE clause. */
  predicate Matches(q: Params, e: Event) {
    e.eventName == q.eventName && q.from <= e.timestampMs < q.to
  }

  /** The rows an aggregate runs over: all that match, or those of one group. */
  datatype Filter = Matching(q: Params) | InGroup(q: Params, dim: GroupBy, group: GroupKey)

  predicate Picks(f: Filter, e: Event) {
    Matches(f.q, e) && (f.InGroup? ==> GroupOf(f.dim, e) == f.group)
  }

  // ----- aggregates over a FINAL view -----

  function Picked(view: set<Row>, f: Filter): set<Row> {
    set r <- view | Picks(f, r.event)
  }

  function UsersOf(rows: set<Row>): set<string> {
    set r <- rows :: r.event.userId
  }

  /** `count()`. */
  function Count(view: set<Row>, f: Filter): nat {
    |Picked(view, f)|
  }

  /** `uniqExact(user_id)`. */
  function Uniques(view: set<Row>, f: Filter): nat {
    |UsersOf(Picked(view, f))|
  }

  /** A stored row counts towards a total exactly when it has the name asked for and lies in the
      half-open range, and then as one row and one user. */
  lemma RowCountsIff(r: Row, q: Params)
    ensures Count({r}, Matching(q)) == Uniques({r}, Matching(q))
      == if r.event.eventName == q.eventName && q.from <= r.event.timestampMs < q.to then 1 else 0
  {
    var rows := Picked({r}, Matching(q));
    if Picks(Matching(q), r.event) {
      assert rows == {r} && UsersOf(rows) == {r.event.userId};
    } else {
      assert rows == {} && UsersOf(rows) == {};
    }
  }

  // ----- the naive reference: keep each accepted event once -----

  predicate Seen(k: Key, log: seq<Event>) {
    exists i | 0 <= i < |log| :: KeyOf(log[i]) == k
  }

  function KeepFirst(log: seq<Event>): seq<Event> {
    if log == [] then []
    else
      var kept, e := KeepFirst(log[..|log| - 1]), log[|log| - 1];
      if Seen(KeyOf(e), kept) then kept else kept + [e]
  }

  function NaiveCount(log: seq<Event>, f: Filter): nat {
    if log == [] then 0
    else NaiveCount(log[..|log| - 1], f) + if Picks(f, log[|log| - 1]) then 1 else 0
  }

  function NaiveUsers(log: seq<Event>, f: Filter): set<string> {
    set e <- log | Picks(f, e) :: e.userId
  }

  function KeysOf(log: seq<Event>): set<Key> {
    set e <- log :: KeyOf(e)
  }

  ghost predicate DistinctKeys(log: seq<Event>) {
    forall i, j :: 0 <= i < j < |log| ==> KeyOf(log[i]) != KeyOf(log[j])
  }

  lemma {:induction false} KeepFirstKeepsKeys(log: seq<Event>)
    ensures DistinctKeys(KeepFirst(log))
    ensures KeysOf(KeepFirst(log)) == KeysOf(log)
    ensures forall e <- KeepFirst(log) :: e in log
  {
    if log == [] {
    } else {
      var front, e := log[..|log| - 1], log[|log| - 1];
      KeepFirstKeepsKeys(front);
      assert log == front + [e];
      assert KeysOf(log) == KeysOf(front) + {KeyOf(e)};
      assert KeysOf(KeepFirst(front) + [e]) == KeysOf(KeepFirst(front)) + {KeyOf(e)};
    }
  }

  /** The keys of the events a filter picks from a log. */
  function PickedKeys(log: seq<Event>, f: Filter): set<Key> {
    set e <- log | Picks(f, e) :: KeyOf(e)
  }

  lemma PickedKeysGrow(log: seq<Event>, e: Event, f: Filter)
    ensures PickedKeys(log + [e], f) == PickedKeys(log, f) + if Picks(f, e) then {KeyOf(e)} else {}
  {
    assert forall x :: x in log + [e] <==> x in log || x == e;
  }

  lemma {:induction false} NaiveCountIsKeys(log: seq<Event>, f: Filter)
    requires DistinctKeys(log)
    ensures NaiveCount(log, f) == |PickedKeys(log, f)|
  {
    if log == [] {
      assert PickedKeys(log, f) == {};
    } else {
      var front, e := log[..|log| - 1], log[|log| - 1];
      NaiveCountIsKeys(front, f);
      PickedKeysGrow(front, e, f);
      assert log == front + [e];
      assert KeyOf(e) !in PickedKeys(front, f);
    }
  }

  lemma {:induction false} RowsAreKeys(rows: set<Row>)
    requires forall v, w :: v in rows && w in rows && RowKey(v) == RowKey(w) ==> v == w
    ensures |rows| == |Keys(rows)|
  {
    if rows == {} {
    } else {
      var x :| x in rows;
      RowsAreKeys(rows - {x});
      assert Keys(rows) == Keys(rows - {x}) + {RowKey(x)};
      assert RowKey(x) !in Keys(rows - {x});
    }
  }

  // ----- FINAL agrees with the reference -----

  /** Events of the log with one key are all picked or all left out. */
  ghost predicate Respects(f: Filter, log: seq<Event>) {
    forall d, e :: d in log && e in log && KeyOf(d) == KeyOf(e) ==> (Picks(f, d) <==> Picks(f, e))
  }

  /** The stored rows are events of the log, and no key of the log is missing. */
  ghost predicate Holds(rows: set<Row>, log: seq<Event>) {
    (forall r <- rows :: r.event in log) && Keys(rows) == KeysOf(log)
  }

  lemma PickedKeysAgree(view: set<Row>, rows: set<Row>, log: seq<Event>, kept: seq<Event>, f: Filter)
    requires IsFinal(view, rows) && Holds(rows, log) && Respects(f, log)
    requires KeysOf(kept) == KeysOf(log) && forall e <- kept :: e in log
    ensures Keys(Picked(view, f)) == PickedKeys(kept, f)
  {
    forall k <- Keys(Picked(view, f)) ensures k in PickedKeys(kept, f) {
      var r :| r in Picked(view, f) && RowKey(r) == k;
      assert k in Keys(rows) && k in KeysOf(kept);
      var e :| e in kept && KeyOf(e) == k;
    }
    forall k <- PickedKeys(kept, f) ensures k in Keys(Picked(view, f)) {
      var e :| e in kept && Picks(f, e) && KeyOf(e) == k;
      assert k in KeysOf(kept) && k in Keys(rows) && k in Keys(view);
      var r :| r in view && RowKey(r) == k;
      assert r in Picked(view, f);
    }
  }

  /** The user is part of the key. */
  lemma UsersAreKeyUsers(rows: set<Row>, kept: seq<Event>, f: Filter)
    requires Keys(rows) == PickedKeys(kept, f)
    ensures UsersOf(rows) == NaiveUsers(kept, f)
  {
    forall u <- UsersOf(rows) ensures u in NaiveUsers(kept, f) {
      var r :| r in rows && r.event.userId == u;
      assert RowKey(r) in PickedKeys(kept, f);
    }
    forall u <- NaiveUsers(kept, f) ensures u in UsersOf(rows) {
      var e :| e in kept && Picks(f, e) && e.userId == u;
      assert KeyOf(e) in Keys(rows);
    }
  }

  /** Both aggregates over any FINAL view equal the naive ones over the log with each key kept
      once. */
  lemma AggregatesAgree(view: set<Row>, rows: set<Row>, log: seq<Event>, f: Filter)
    requires IsFinal(view, rows) && Holds(rows, log) && Respects(f, log)
    ensures Count(view, f) == NaiveCount(KeepFirst(log), f)
    ensures UsersOf(Picked(view, f)) == NaiveUsers(KeepFirst(log), f)
  {
    var kept := KeepFirst(log);
    KeepFirstKeepsKeys(log);
    PickedKeysAgree(view, rows, log, kept, f);
    NaiveCountIsKeys(kept, f);
    RowsAreKeys(Picked(view, f));
    UsersAreKeyUsers(Picked(view, f), kept, f);
  }

  // ----- FINAL is stable -----

  ghost predicate OneRowPerKey(rows: set<Row>) {
    forall v, w :: v in rows && w in rows && RowKey(v) == RowKey(w) ==> v == w
  }

  /** Rows of one key, one in each set, are both picked or both left out. */
  ghost predicate PickedAlike(f: Filter, v: set<Row>, w: set<Row>) {
    forall x, y :: x in v && y in w && RowKey(x) == RowKey(y) ==> (Picks(f, x.event) <==> Picks(f, y.event))
  }

  lemma PickedKeysWithin(v: set<Row>, w: set<Row>, f: Filter)
    requires Keys(v) <= Keys(w) && PickedAlike(f, v, w)
    ensures Keys(Picked(v, f)) <= Keys(Picked(w, f))
  {
    forall k <- Keys(Picked(v, f)) ensures k in Keys(Picked(w, f)) {
      var x :| x in Picked(v, f) && RowKey(x) == k;
      assert k in Keys(v) && k in Keys(w);
      var y :| y in w && RowKey(y) == k;
      assert y in Picked(w, f);
    }
  }

  lemma UsersWithin(v: set<Row>, w: set<Row>)
    requires Keys(v) <= Keys(w)
    ensures UsersOf(v) <= UsersOf(w)
  {
    forall u <- UsersOf(v) ensures u in UsersOf(w) {
      var x :| x in v && x.event.userId == u;
      assert RowKey(x) in Keys(w);
    }
  }

  /** The keys alone decide both aggregates. */
  lemma SameKeysSameAggregates(v: set<Row>, w: set<Row>, f: Filter)
    requires OneRowPerKey(v) && OneRowPerKey(w) && Keys(v) == Keys(w) && PickedAlike(f, v, w)
    ensures Count(v, f) == Count(w, f) && UsersOf(Picked(v, f)) == UsersOf(Picked(w, f))
  {
    PickedKeysWithin(v, w, f);
    PickedKeysWithin(w, v, f);
    assert Keys(Picked(v, f)) == Keys(Picked(w, f));
    RowsAreKeys(Picked(v, f));
    RowsAreKeys(Picked(w, f));
    UsersWithin(Picked(v, f), Picked(w, f));
    UsersWithin(Picked(w, f), Picked(v, f));
  }

  /** Rows of known keys are written again, in any parts, and any merges follow: whatever FINAL
      shows before and after, the aggregates are the same. Groups by columns outside the key need
      that rows of one key agree on them. */
  lemma FinalIsStable(cal: Calendar, t: Table, parts: Table, ts: seq<Table>, view: set<Row>, view': set<Row>, f: Filter)
    requires Keys(Rows(parts)) <= Keys(Rows(t)) && IsFinal(view, Rows(t))
    requires MergeRun(cal, ts) && ts[0] == t + parts && IsFinal(view', Rows(ts[|ts| - 1]))
    requires f.Matching? || PickedAlike(f, Rows(t + parts), Rows(t + parts))
    ensures Keys(view) == Keys(view')
    ensures Count(view, f) == Count(view', f) && Uniques(view, f) == Uniques(view', f)
  {
    MergesKeepFinal(cal, ts, view');
    ReinsertKeepsKeys(t, parts, view, view');
    RowsOfSum(t, parts);
    assert PickedAlike(f, view, view');
    SameKeysSameAggregates(view, view', f);
  }

  // ----- group tables -----

  datatype GroupResult = GroupResult(key: GroupKey, totalCount: nat, uniqueCount: nat)

  /** ORDER BY: largest groups first for the named ones, chronological for the others. */
  ghost predicate Ordered(dim: GroupBy, table: seq<GroupResult>) {
    forall i, j :: 0 <= i < j < |table| ==>
      if dim.ByHour? || dim.ByDay?
      then table[i].key.Bucket? && table[j].key.Bucket? ==> table[i].key.number <= table[j].key.number
      else table[i].totalCount >= table[j].totalCount
  }

  ghost predicate Lists(table: seq<GroupResult>, g: GroupKey) {
    exists i :: 0 <= i < |table| && table[i].key == g
  }

  /** `table` is a GROUP BY result: one row per group that has events, with its two counts. */
  ghost predicate Tabulates(table: seq<GroupResult>, dim: GroupBy, total: GroupKey -> nat, unique: GroupKey -> nat) {
    && (forall i, j :: 0 <= i < j < |table| ==> table[i].key != table[j].key)
    && (forall g :: Lists(table, g) <==> total(g) > 0)
    && (forall i :: 0 <= i < |table| ==>
          table[i].totalCount == total(table[i].key) && table[i].uniqueCount == unique(table[i].key))
    && Ordered(dim, table)
  }

  ghost predicate IsGroupTable(table: seq<GroupResult>, view: set<Row>, q: Params, dim: GroupBy) {
    Tabulates(table, dim, g => Count(view, InGroup(q, dim, g)), g => Uniques(view, InGroup(q, dim, g)))
  }

  /** The same table computed naively from the log. */
  ghost predicate IsNaiveTable(table: seq<GroupResult>, log: seq<Event>, q: Params, dim: GroupBy) {
    Tabulates(table, dim, g => NaiveCount(log, InGroup(q, dim, g)), g => |NaiveUsers(log, InGroup(q, dim, g))|)
  }

  lemma GroupTablesAgree(table: seq<GroupResult>, view: set<Row>, rows: set<Row>, log: seq<Event>, q: Params, dim: GroupBy)
    requires IsFinal(view, rows) && Holds(rows, log)
    requires forall g :: Respects(InGroup(q, dim, g), log)
    ensures IsGroupTable(table, view, q, dim) <==> IsNaiveTable(table, KeepFirst(log), q, dim)
  {
    forall g
      ensures Count(view, InGroup(q, dim, g)) == NaiveCount(KeepFirst(log), InGroup(q, dim, g))
      ensures Uniques(view, InGroup(q, dim, g)) == |NaiveUsers(KeepFirst(log), InGroup(q, dim, g))|
    {
      AggregatesAgree(view, rows, log, InGroup(q, dim, g));
    }
  }

  // ----- aggregation laws on one snapshot -----

  /** Named groups come with the largest first. */
  lemma LargestGroupFirst(table: seq<GroupResult>, view: set<Row>, q: Params, dim: GroupBy, g: GroupKey)
    requires IsGroupTable(table, view, q, dim) && table != [] && (dim.ByChannel? || dim.ByCampaign?)
    ensures Count(view, InGroup(q, dim, g)) <= table[0].totalCount
  {
    if Count(view, InGroup(q, dim, g)) > 0 {
      assert Lists(table, g);
      var i :| 0 <= i < |table| && table[i].key == g;
    }
  }

  /** Hours and days come in the order of time. */
  lemma BucketsAscend(table: seq<GroupResult>, view: set<Row>, q: Params, dim: GroupBy)
    requires IsGroupTable(table, view, q, dim) && (dim.ByHour? || dim.ByDay?)
    ensures forall i, j :: 0 <= i < j < |table| ==>
      table[i].key.Bucket? && table[j].key.Bucket? && table[i].key.number < table[j].key.number
  {
    forall i | 0 <= i < |table| ensures table[i].key.Bucket? {
      assert Lists(table, table[i].key);
      var r :| r in Picked(view, InGroup(q, dim, table[i].key));
    }
  }

  function SumTotals(table: seq<GroupResult>): nat {
    if table == [] then 0 else table[0].totalCount + SumTotals(table[1..])
  }

  function SumUniques(table: seq<GroupResult>): nat {
    if table == [] then 0 else table[0].uniqueCount + SumUniques(table[1..])
  }

  function GroupsOf(table: seq<GroupResult>): set<GroupKey> {
    set i | 0 <= i < |table| :: table[i].key
  }

  function OfGroup(rows: set<Row>, dim: GroupBy, g: GroupKey): set<Row> {
    set r <- rows | GroupOf(dim, r.event) == g
  }

  function InGroups(rows: set<Row>, dim: GroupBy, gs: set<GroupKey>): set<Row> {
    set r <- rows | GroupOf(dim, r.event) in gs
  }

  /** Summing `total` over the listed groups. */
  function SumOver(table: seq<GroupResult>, total: GroupKey -> nat): nat {
    if table == [] then 0 else total(table[0].key) + SumOver(table[1..], total)
  }

  lemma InGroupsCons(rows: set<Row>, dim: GroupBy, g: GroupKey, gs: set<GroupKey>)
    ensures InGroups(rows, dim, {g} + gs) == OfGroup(rows, dim, g) + InGroups(rows, dim, gs)
    ensures g !in gs ==> |InGroups(rows, dim, {g} + gs)| == |OfGroup(rows, dim, g)| + |InGroups(rows, dim, gs)|
  {
    var a, b := OfGroup(rows, dim, g), InGroups(rows, dim, gs);
    assert InGroups(rows, dim, {g} + gs) == a + b;
    assert g !in gs ==> a !! b;
  }

  lemma FirstNotAgain(table: seq<GroupResult>)
    requires table != [] && forall i, j :: 0 <= i < j < |table| ==> table[i].key != table[j].key
    ensures table[0].key !in GroupsOf(table[1..])
  {
  }

  lemma GroupsOfCons(table: seq<GroupResult>)
    requires table != []
    ensures GroupsOf(table) == {table[0].key} + GroupsOf(table[1..])
  {
    forall g ensures g in GroupsOf(table) <==> g in {table[0].key} + GroupsOf(table[1..]) {
      if g in GroupsOf(table) {
        var i :| 0 <= i < |table| && table[i].key == g;
        assert i > 0 ==> table[1..][i - 1].key == g;
      }
      if g in GroupsOf(table[1..]) {
        var i :| 0 <= i < |table[1..]| && table[1..][i].key == g;
        assert table[i + 1].key == g;
      }
    }
  }

  lemma {:induction false} GroupsPartition(table: seq<GroupResult>, rows: set<Row>, dim: GroupBy)
    requires forall i, j :: 0 <= i < j < |table| ==> table[i].key != table[j].key
    ensures SumOver(table, g => |OfGroup(rows, dim, g)|) == |InGroups(rows, dim, GroupsOf(table))|
  {
    if table == [] {
      assert InGroups(rows, dim, GroupsOf(table)) == {};
    } else {
      var g, rest := table[0].key, table[1..];
      GroupsPartition(rest, rows, dim);
      GroupsOfCons(table);
      FirstNotAgain(table);
      InGroupsCons(rows, dim, g, GroupsOf(rest));
    }
  }

  lemma SubsetSize<T>(a: set<T>, b: set<T>)
    requires a <= b
    ensures |a| <= |b|
  {
    assert b == a + (b - a);
  }

  lemma UnionSize<T>(a: set<T>, b: set<T>)
    ensures |a + b| <= |a| + |b|
  {
    assert a + b == a + (b - a);
    SubsetSize(b - a, b);
  }

  lemma UsersOfUnion(a: set<Row>, b: set<Row>)
    ensures |UsersOf(a + b)| <= |UsersOf(a)| + |UsersOf(b)|
  {
    assert UsersOf(a + b) == UsersOf(a) + UsersOf(b);
    UnionSize(UsersOf(a), UsersOf(b));
  }

  lemma {:induction false} SumTotalsIsSumOver(table: seq<GroupResult>, total: GroupKey -> nat)
    requires forall i :: 0 <= i < |table| ==> table[i].totalCount == total(table[i].key)
    ensures SumTotals(table) == SumOver(table, total)
  {
    if table == [] {
    } else {
      assert forall i :: 0 <= i < |table[1..]| ==> table[1..][i] == table[i + 1];
      SumTotalsIsSumOver(table[1..], total);
    }
  }

  lemma {:induction false} SumOverSame(table: seq<GroupResult>, s: GroupKey -> nat, t: GroupKey -> nat)
    requires forall g :: s(g) == t(g)
    ensures SumOver(table, s) == SumOver(table, t)
  {
    if table == [] {
    } else {
      SumOverSame(table[1..], s, t);
    }
  }

  lemma PickedOfGroup(view: set<Row>, q: Params, dim: GroupBy, g: GroupKey)
    ensures Picked(view, InGroup(q, dim, g)) == OfGroup(Picked(view, Matching(q)), dim, g)
  {
  }

  lemma EveryGroupListed(table: seq<GroupResult>, view: set<Row>, q: Params, dim: GroupBy)
    requires IsGroupTable(table, view, q, dim)
    ensures InGroups(Picked(view, Matching(q)), dim, GroupsOf(table)) == Picked(view, Matching(q))
  {
    forall r <- Picked(view, Matching(q)) ensures GroupOf(dim, r.event) in GroupsOf(table) {
      var g := GroupOf(dim, r.event);
      assert r in Picked(view, InGroup(q, dim, g));
      assert Lists(table, g);
    }
  }

  /** The group totals add up to the overall total. */
  lemma GroupTotalsAddUp(table: seq<GroupResult>, view: set<Row>, q: Params, dim: GroupBy)
    requires IsGroupTable(table, view, q, dim)
    ensures SumTotals(table) == Count(view, Matching(q))
  {
    var rows := Picked(view, Matching(q));
    var total := g => Count(view, InGroup(q, dim, g));
    SumTotalsIsSumOver(table, total);
    forall g ensures total(g) == |OfGroup(rows, dim, g)| { PickedOfGroup(view, q, dim, g); }
    SumOverSame(table, total, g => |OfGroup(rows, dim, g)|);
    GroupsPartition(table, rows, dim);
    EveryGroupListed(table, view, q, dim);
  }

  lemma {:induction false} UsersAtMostRows(rows: set<Row>)
    ensures |UsersOf(rows)| <= |rows|
  {
    if rows == {} {
    } else {
      var x :| x in rows;
      UsersAtMostRows(rows - {x});
      assert UsersOf(rows) == UsersOf(rows - {x}) + {x.event.userId};
    }
  }

  lemma {:induction false} UsersOfGroups(table: seq<GroupResult>, rows: set<Row>, dim: GroupBy)
    requires forall i :: 0 <= i < |table| ==> table[i].uniqueCount == |UsersOf(OfGroup(rows, dim, table[i].key))|
    ensures |UsersOf(InGroups(rows, dim, GroupsOf(table)))| <= SumUniques(table)
  {
    if table == [] {
      assert UsersOf(InGroups(rows, dim, GroupsOf(table))) == {};
    } else {
      var rest := table[1..];
      UsersOfGroups(rest, rows, dim);
      GroupsOfCons(table);
      InGroupsCons(rows, dim, table[0].key, GroupsOf(rest));
      UsersOfUnion(OfGroup(rows, dim, table[0].key), InGroups(rows, dim, GroupsOf(rest)));
    }
  }

  /** Every group's distinct users are at most all distinct users, which are at most the total,
      and at most the groups' distinct users together. */
  lemma GroupUniquesBound(table: seq<GroupResult>, view: set<Row>, q: Params, dim: GroupBy)
    requires IsGroupTable(table, view, q, dim)
    ensures forall i :: 0 <= i < |table| ==> table[i].uniqueCount <= Uniques(view, Matching(q))
    ensures Uniques(view, Matching(q)) <= SumUniques(table)
    ensures Uniques(view, Matching(q)) <= Count(view, Matching(q))
  {
    var rows := Picked(view, Matching(q));
    UsersAtMostRows(rows);
    forall i | 0 <= i < |table|
      ensures table[i].uniqueCount == |UsersOf(OfGroup(rows, dim, table[i].key))| <= |UsersOf(rows)|
    {
      PickedOfGroup(view, q, dim, table[i].key);
      SubsetSize(UsersOf(OfGroup(rows, dim, table[i].key)), UsersOf(rows));
    }
    UsersOfGroups(table, rows, dim);
    EveryGroupListed(table, view, q, dim);
  }

  /** The totals of the hours that belong to one day. */
  function SumOfDay(hours: seq<GroupResult>, day: nat): nat {
    if hours == [] then 0
    else (if hours[0].key.Bucket? && hours[0].key.number / 24 == day then hours[0].totalCount else 0)
         + SumOfDay(hours[1..], day)
  }

  lemma HoursMakeDays(s: nat)
    ensures s / 86400 == s / 3600 / 24
  {
  }

  lemma HourInDay(view: set<Row>, q: Params, h: GroupKey, day: nat)
    requires h.Bucket?
    ensures OfGroup(Picked(view, InGroup(q, ByDay, Bucket(day))), ByHour, h)
      == if h.number / 24 == day then Picked(view, InGroup(q, ByHour, h)) else {}
  {
    forall r <- view | GroupOf(ByHour, r.event) == h ensures GroupOf(ByDay, r.event) == Bucket(h.number / 24) {
      HoursMakeDays(r.event.timestampMs / 1000);
    }
  }

  lemma {:induction false} DaySum(hours: seq<GroupResult>, view: set<Row>, q: Params, day: nat)
    requires forall i :: 0 <= i < |hours| ==>
      hours[i].key.Bucket? && hours[i].totalCount == Count(view, InGroup(q, ByHour, hours[i].key))
    ensures SumOfDay(hours, day)
      == SumOver(hours, h => |OfGroup(Picked(view, InGroup(q, ByDay, Bucket(day))), ByHour, h)|)
  {
    if hours == [] {
    } else {
      HourInDay(view, q, hours[0].key, day);
      assert forall i :: 0 <= i < |hours[1..]| ==> hours[1..][i] == hours[i + 1];
      DaySum(hours[1..], view, q, day);
    }
  }

  /** A day's total is the sum of the totals of its hours. */
  lemma DaysAreSumsOfHours(hours: seq<GroupResult>, view: set<Row>, q: Params, day: nat)
    requires IsGroupTable(hours, view, q, ByHour)
    ensures Count(view, InGroup(q, ByDay, Bucket(day))) == SumOfDay(hours, day)
  {
    var rows := Picked(view, InGroup(q, ByDay, Bucket(day)));
    forall i | 0 <= i < |hours| ensures hours[i].key.Bucket? {
      assert Lists(hours, hours[i].key);
      var r :| r in Picked(view, InGroup(q, ByHour, hours[i].key));
    }
    DaySum(hours, view, q, day);
    GroupsPartition(hours, rows, ByHour);
    EveryGroupListed(hours, view, q, ByHour);
    forall r <- rows ensures GroupOf(ByHour, r.event) in GroupsOf(hours) {
      assert r in Picked(view, Matching(q));
    }
    assert InGroups(rows, ByHour, GroupsOf(hours)) == rows;
  }

  /** Adjacent ranges: totals add, distinct users are subadditive. */
  lemma RangesAdd(view: set<Row>, q: Params, mid: UInt64)
    requires q.from <= mid <= q.to
    ensures Count(view, Matching(q))
      == Count(view, Matching(q.(to := mid))) + Count(view, Matching(q.(from := mid)))
    ensures Uniques(view, Matching(q))
      <= Uniques(view, Matching(q.(to := mid))) + Uniques(view, Matching(q.(from := mid)))
  {
    var a, b := Picked(view, Matching(q.(to := mid))), Picked(view, Matching(q.(from := mid)));
    assert Picked(view, Matching(q)) == a + b && a !! b;
    UsersOfUnion(a, b);
  }

  // ----- reading the result rows -----

  /** A query is refused, or streams its rows: `Next` reports the end after `delivered` of them,
      whether or not more were to come, and a Scan may fail. */
  datatype Stream<T> =
    | Refused(timedOut: bool)
    | Streamed(rows: seq<T>, delivered: nat, scanFailsAt: Option<nat>)

  ghost predicate WellFormed<T>(s: Stream<T>) {
    s.Streamed? ==> s.delivered <= |s.rows|
  }

  datatype Totals = Totals(total: nat, unique: nat)

  datatype MetricResult = MetricResult(params: Params, total: nat, unique: nat, groups: seq<GroupResult>)

  datatype QueryError = QueryTimeout | QueryFailed | ScanFailed | UnsupportedGroupBy(name: string)

  predicate ScanFails<T>(s: Stream<T>)
    requires s.Streamed?
  {
    s.scanFailsAt.Some? && s.scanFailsAt.value < s.delivered
  }

  /** What `Query` answers, given the two streams. */
  function Answer(q: Params, totals: Stream<Totals>, groups: Stream<GroupResult>): Result<MetricResult, QueryError>
    requires totals.Streamed? ==> totals.delivered <= |totals.rows|
    requires groups.Streamed? ==> groups.delivered <= |groups.rows|
  {
    if totals.Refused? then Err(if totals.timedOut then QueryTimeout else QueryFailed)
    else if totals.delivered > 0 && totals.scanFailsAt == Some(0) then Err(ScanFailed)
    else
      var t := if totals.delivered > 0 then totals.rows[0] else Totals(0, 0);
      if q.groupBy.NoGroup? then Ok(MetricResult(q, t.total, t.unique, []))
      else if q.groupBy.Unsupported? then Err(UnsupportedGroupBy(q.groupBy.name))
      else if groups.Refused? then Err(if groups.timedOut then QueryTimeout else QueryFailed)
      else if ScanFails(groups) then Err(ScanFailed)
      else Ok(MetricResult(q, t.total, t.unique, groups.rows[..groups.delivered]))
  }

  /** The streams carry what the two SQL statements return on the snapshot `view`. */
  ghost predicate Carries(q: Params, view: set<Row>, totals: Stream<Totals>, groups: Stream<GroupResult>) {
    && WellFormed(totals) && WellFormed(groups)
    && (totals.Streamed? ==> totals.rows == [Totals(Count(view, Matching(q)), Uniques(view, Matching(q)))])
    && (groups.Streamed? ==> IsGroupTable(groups.rows, view, q, q.groupBy))
  }

  ghost predicate Truthful(res: MetricResult, q: Params, view: set<Row>) {
    && res.params == q
    && res.total == Count(view, Matching(q)) && res.unique == Uniques(view, Matching(q))
    && (if q.groupBy.NoGroup? then res.groups == [] else IsGroupTable(res.groups, view, q, q.groupBy))
  }

  lemma CutTableIsWrong(table: seq<GroupResult>, n: nat, view: set<Row>, q: Params)
    requires IsGroupTable(table, view, q, q.groupBy) && n < |table|
    ensures !IsGroupTable(table[..n], view, q, q.groupBy)
  {
    var g := table[n].key;
    assert Lists(table, g);
    assert !Lists(table[..n], g);
  }

  /** `Query` never asks the driver why a stream ended. A successful answer is the truth exactly
      when each stream it read delivered every row that counts something. */
  lemma TruthfulIff(q: Params, view: set<Row>, totals: Stream<Totals>, groups: Stream<GroupResult>)
    requires Carries(q, view, totals, groups) && Answer(q, totals, groups).Ok?
    ensures Truthful(Answer(q, totals, groups).value, q, view) <==>
      && (totals.delivered == 1 || Count(view, Matching(q)) == 0)
      && (q.groupBy.NoGroup? || groups.delivered == |groups.rows|)
  {
    UsersAtMostRows(Picked(view, Matching(q)));
    if !q.groupBy.NoGroup? {
      var table := groups.rows;
      if groups.delivered < |table| {
        CutTableIsWrong(table, groups.delivered, view, q);
      } else {
        assert table[..groups.delivered] == table;
      }
    }
  }

  lemma OneGroup(r: Row, q: Params)
    requires Matches(q, r.event)
    ensures IsGroupTable([GroupResult(Name(r.event.channel), 1, 1)], {r}, q, ByChannel)
  {
    var table := [GroupResult(Name(r.event.channel), 1, 1)];
    forall g ensures Picked({r}, InGroup(q, ByChannel, g)) == if g == Name(r.event.channel) then {r} else {} {
    }
    assert UsersOf({r}) == {r.event.userId};
    assert table[0].key == Name(r.event.channel);
    assert Lists(table, Name(r.event.channel));
  }

  /** One event is stored; a query by channel that covers it gets the totals row, and no group row
      before the stream breaks off. */
  lemma CutStreamIsAnswered(r: Row)
    requires r.event.timestampMs + 1 < TWO_64
    ensures exists q, totals, groups ::
      Carries(q, {r}, totals, groups) && Answer(q, totals, groups).Ok? && !Truthful(Answer(q, totals, groups).value, q, {r})
  {
    var e := r.event;
    var q := Params(e.eventName, e.timestampMs, e.timestampMs + 1, ByChannel);
    var table := [GroupResult(Name(e.channel), 1, 1)];
    assert Picked({r}, Matching(q)) == {r} && UsersOf({r}) == {e.userId};
    OneGroup(r, q);
    var totals, groups := Streamed([Totals(1, 1)], 1, None), Streamed(table, 0, None);
    TruthfulIff(q, {r}, totals, groups);
    assert Carries(q, {r}, totals, groups);
  }

  method Query(q: Params, totals: Stream<Totals>, groups: Stream<GroupResult>) returns (r: Result<MetricResult, QueryError>)
    requires WellFormed(totals) && WellFormed(groups)
    ensures r == Answer(q, totals, groups)
    ensures r.Ok? <==>
      && totals.Streamed? && !(totals.delivered > 0 && totals.scanFailsAt == Some(0))
      && (q.groupBy.NoGroup?
          || (!q.groupBy.Unsupported? && groups.Streamed?
              && (groups.scanFailsAt.None? || groups.scanFailsAt.value >= groups.delivered)))
    ensures r.Ok? ==>
      && r.value.params == q
      && r.value.total == (if totals.delivered > 0 then totals.rows[0].total else 0)
      && r.value.unique == (if totals.delivered > 0 then totals.rows[0].unique else 0)
      && r.value.groups == (if q.groupBy.NoGroup? then [] else groups.rows[..groups.delivered])
    ensures r.Err? && r.error.UnsupportedGroupBy? <==>
      totals.Streamed? && !(totals.delivered > 0 && totals.scanFailsAt == Some(0)) && q.groupBy.Unsupported?
    ensures r.Err? && r.error.UnsupportedGroupBy? ==> r.error.name == q.groupBy.name
    ensures forall timedOut: bool :: r == Err(if timedOut then QueryTimeout else QueryFailed) <==>
      || totals == Refused(timedOut)
      || (totals.Streamed? && !(totals.delivered > 0 && totals.scanFailsAt == Some(0))
          && !q.groupBy.NoGroup? && !q.groupBy.Unsupported? && groups == Refused(timedOut))
    ensures r == Err(ScanFailed) <==>
      totals.Streamed? &&
      (|| (totals.delivered > 0 && totals.scanFailsAt == Some(0))
       || (!q.groupBy.NoGroup? && !q.groupBy.Unsupported? && groups.Streamed?
           && groups.scanFailsAt.Some? && groups.scanFailsAt.value < groups.delivered))
    ensures forall view :: Carries(q, view, totals, groups) && r.Ok? ==>
      (Truthful(r.value, q, view) <==>
        && (totals.delivered == 1 || Count(view, Matching(q)) == 0)
        && (q.groupBy.NoGroup? || groups.delivered == |groups.rows|))
  {
    if totals.Refused? {
      return Err(if totals.timedOut then QueryTimeout else QueryFailed);
    }
    var totalCount, uniqueCount := 0, 0;
    if totals.delivered > 0 {
      if totals.scanFailsAt == Some(0) {
        return Err(ScanFailed);
      }
      totalCount, uniqueCount := totals.rows[0].total, totals.rows[0].unique;
    }
    var res := MetricResult(q, totalCount, uniqueCount, []);
    if !q.groupBy.NoGroup? {
      if q.groupBy.Unsupported? {
        return Err(UnsupportedGroupBy(q.groupBy.name));
      }
      if groups.Refused? {
        return Err(if groups.timedOut then QueryTimeout else QueryFailed);
      }
      for i := 0 to groups.delivered
        invariant res == MetricResult(q, totalCount, uniqueCount, groups.rows[..i])
        invariant groups.scanFailsAt.Some? ==> groups.scanFailsAt.value >= i
      {
        if groups.scanFailsAt == Some(i) {
          return Err(ScanFailed);
        }
        res := res.(groups := res.groups + [groups.rows[i]]);
      }
    }
    forall view | Carries(q, view, totals, groups) ensures Truthful(res, q, view) <==>
        && (totals.delivered == 1 || Count(view, Matching(q)) == 0)
        && (q.groupBy.NoGroup? || groups.delivered == |groups.rows|)
    {
      TruthfulIff(q, view, totals, groups);
    }
    return Ok(res);
  }
}
