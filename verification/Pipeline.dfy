/** The ingestor end to end: events admitted by Ingest, batched, written by four workers with
    retries and ambiguous failures, merged in the background and queried through FINAL, against
    a naive reader of the accepted log. */
module Pipeline {
  import opened Arithmetic
  import opened Payloads
  import opened Events
  import opened Stores
  import opened Metrics
  import opened BufferProtocol
  import opened BufferRuns
  import I = Ingestion

  /** The validation settings of the use case and the hash. */
  datatype Service = Service(hash: Hash, maxFuture: Int64, maxPast: Int64)

  ghost predicate ClockReads(v: Service, now: UInt64) {
    Clock(now, v.maxFuture, v.maxPast)
  }

  /** `e` is what Ingest makes of some raw event it accepts at some instant. */
  ghost predicate FromIngest(v: Service, e: Event) {
    exists raw, now :: ClockReads(v, now) && Marshalable(raw) && Acceptable(raw, now, v.maxFuture, v.maxPast)
      && e == EventOf(v.hash, raw)
  }

  /** The events of `FromIngest` are exactly those `UseCase.Ingest` publishes: the ones it judges
      accepted, in the form it hands to the publisher. */
  lemma IngestIsTheGate(uc: I.UseCase, v: Service, e: Event)
    requires v == Service(uc.hash, uc.maxFuture, uc.maxPast)
    ensures FromIngest(v, e) <==>
      exists call: I.Call :: ClockReads(v, call.now) && uc.Judge(call).Accepted? && e == EventOf(uc.hash, call.raw)
  {
    if FromIngest(v, e) {
      var raw, now :| ClockReads(v, now) && Marshalable(raw) && Acceptable(raw, now, v.maxFuture, v.maxPast)
        && e == EventOf(v.hash, raw);
      assert uc.Judge(I.Call(raw, now, true)).Accepted?;
    }
  }

  /** Ingest is the only way into the buffer. */
  ghost predicate Ingesting(v: Service, steps: seq<Step>) {
    forall i :: 0 <= i < |steps| && steps[i].Publish? ==> FromIngest(v, steps[i].e)
  }

  ghost predicate Serves(c: Config, v: Service, s: State) {
    exists steps :: Legal(c, Init(), steps) && Ingesting(v, steps) && Exec(c, Init(), steps) == s
  }

  ghost predicate AllIngested(v: Service, log: seq<Event>) {
    forall i :: 0 <= i < |log| ==> FromIngest(v, log[i])
  }

  lemma {:induction false} AcceptedAreIngested(c: Config, v: Service, s: State, steps: seq<Step>)
    requires Legal(c, s, steps) && Ingesting(v, steps) && AllIngested(v, s.accepted)
    ensures AllIngested(v, Exec(c, s, steps).accepted)
    decreases |steps|
  {
    if steps == [] {
    } else {
      var t := Apply(c, s, steps[0]);
      assert t.accepted == s.accepted || (steps[0].Publish? && t.accepted == s.accepted + [steps[0].e]);
      assert forall i :: 0 <= i < |steps[1..]| ==> steps[1..][i] == steps[i + 1];
      AcceptedAreIngested(c, v, t, steps[1..]);
    }
  }

  lemma ServesReachable(c: Config, v: Service, s: State)
    requires Usable(c) && Serves(c, v, s)
    ensures Reachable(c, s) && Inv(c, s) && AllIngested(v, s.accepted)
  {
    var steps :| Legal(c, Init(), steps) && Ingesting(v, steps) && Exec(c, Init(), steps) == s;
    AcceptedAreIngested(c, v, Init(), steps);
    ReachableInv(c, s);
  }

  // ----- every stored row was valid when it was accepted -----

  lemma IngestedIsValid(v: Service, e: Event)
    requires FromIngest(v, e)
    ensures WellHashed(v.hash, e) && NulFree(e.metadata)
    ensures exists now: UInt64 :: ClockReads(v, now) && ValidRow(e, now, v.maxFuture, v.maxPast)
  {
    var raw, now :| ClockReads(v, now) && Marshalable(raw) && Acceptable(raw, now, v.maxFuture, v.maxPast)
      && e == EventOf(v.hash, raw);
    AcceptedIsValid(v.hash, raw, now, v.maxFuture, v.maxPast);
    MetadataNulFree(raw);
  }

  /** Over every run, each row of the table has a name of 1 to 100 bytes that is not blank, a
      non-blank user and a timestamp inside the window of its acceptance instant. */
  lemma StoredRowsAreValid(c: Config, v: Service, s: State, r: Row)
    requires Usable(c) && Serves(c, v, s) && r in Rows(s.table)
    ensures exists now: UInt64 :: ClockReads(v, now) && ValidRow(r.event, now, v.maxFuture, v.maxPast)
  {
    ServesReachable(c, v, s);
    var i :| 0 <= i < |s.accepted| && s.accepted[i] == r.event;
    IngestedIsValid(v, s.accepted[i]);
  }

  // ----- under any failure pattern -----

  function SucceededKeys(rs: seq<Resolution>): set<Key> {
    set r, e | r in rs && r.ok && e in r.batch :: KeyOf(e)
  }

  lemma ResolvedIsSettled(c: Config, s: State, r: Resolution)
    requires Usable(c) && Reachable(c, s) && r in s.resolved
    ensures Settled(c, s.table, r)
  {
    ReachableInv(c, s);
    var i :| 0 <= i < |s.resolved| && s.resolved[i] == r;
  }

  /** Whatever fails, FINAL shows every key of the batches that succeeded and no key that was
      not accepted. */
  lemma KeysSandwiched(c: Config, s: State, view: set<Row>)
    requires Usable(c) && Reachable(c, s) && IsFinal(view, Rows(s.table))
    ensures SucceededKeys(s.resolved) <= Keys(view) <= KeysOf(s.accepted)
  {
    ReachableInv(c, s);
    FinalKeys(view, Rows(s.table));
    forall k <- SucceededKeys(s.resolved) ensures k in Keys(view) {
      var r, e :| r in s.resolved && r.ok && e in r.batch && KeyOf(e) == k;
      ResolvedIsSettled(c, s, r);
    }
    forall k <- Keys(view) ensures k in KeysOf(s.accepted) {
      var r :| r in view && RowKey(r) == k;
      assert r.event in s.accepted;
    }
  }

  lemma MatchingIsOnKeys(q: Params, d: Event, e: Event)
    requires KeyOf(d) == KeyOf(e)
    ensures Picks(Matching(q), d) <==> Picks(Matching(q), e)
  {
  }

  /** A reported total never exceeds the number of distinct accepted events in range. */
  lemma NeverOvercounts(c: Config, s: State, view: set<Row>, q: Params)
    requires Usable(c) && Reachable(c, s) && IsFinal(view, Rows(s.table))
    ensures Count(view, Matching(q)) <= NaiveCount(KeepFirst(s.accepted), Matching(q))
  {
    var f, kept := Matching(q), KeepFirst(s.accepted);
    KeysSandwiched(c, s, view);
    KeepFirstKeepsKeys(s.accepted);
    NaiveCountIsKeys(kept, f);
    RowsAreKeys(Picked(view, f));
    forall k <- Keys(Picked(view, f)) ensures k in PickedKeys(kept, f) {
      var r :| r in Picked(view, f) && RowKey(r) == k;
      assert k in Keys(view) && k in KeysOf(kept);
      var e :| e in kept && KeyOf(e) == k;
      MatchingIsOnKeys(q, r.event, e);
    }
    SubsetSize(Keys(Picked(view, f)), PickedKeys(kept, f));
  }

  predicate KeyInRange(q: Params, k: Key) {
    k.eventName == q.eventName && q.from <= k.timestampMs < q.to
  }

  function InRange(q: Params, ks: set<Key>): set<Key> {
    set k <- ks | KeyInRange(q, k)
  }

  function UsersOfKeys(ks: set<Key>): set<string> {
    set k <- ks :: k.userId
  }

  lemma PickedAreInRange(view: set<Row>, q: Params)
    ensures Keys(Picked(view, Matching(q))) == InRange(q, Keys(view))
    ensures UsersOf(Picked(view, Matching(q))) == UsersOfKeys(InRange(q, Keys(view)))
  {
    var rows := Picked(view, Matching(q));
    forall k <- InRange(q, Keys(view)) ensures k in Keys(rows) {
      var r :| r in view && RowKey(r) == k;
      assert r in rows;
    }
    forall u <- UsersOf(rows) ensures u in UsersOfKeys(Keys(rows)) {
      var r :| r in rows && r.event.userId == u;
      assert RowKey(r) in Keys(rows);
    }
  }

  /** A reported total is never below the number of distinct events in range whose batch
      succeeded, and the reported users include theirs. */
  lemma NeverUndercounts(c: Config, s: State, view: set<Row>, q: Params)
    requires Usable(c) && Reachable(c, s) && IsFinal(view, Rows(s.table))
    ensures |InRange(q, SucceededKeys(s.resolved))| <= Count(view, Matching(q))
    ensures |UsersOfKeys(InRange(q, SucceededKeys(s.resolved)))| <= Uniques(view, Matching(q))
  {
    KeysSandwiched(c, s, view);
    PickedAreInRange(view, q);
    RowsAreKeys(Picked(view, Matching(q)));
    var ks := InRange(q, SucceededKeys(s.resolved));
    SubsetSize(ks, InRange(q, Keys(view)));
    SubsetSize(UsersOfKeys(ks), UsersOfKeys(InRange(q, Keys(view))));
  }

  /** Nor does it report a user without an accepted event in range. */
  lemma UsersNeverOvercounted(c: Config, s: State, view: set<Row>, q: Params)
    requires Usable(c) && Reachable(c, s) && IsFinal(view, Rows(s.table))
    ensures UsersOf(Picked(view, Matching(q))) <= NaiveUsers(KeepFirst(s.accepted), Matching(q))
    ensures Uniques(view, Matching(q)) <= |NaiveUsers(KeepFirst(s.accepted), Matching(q))|
  {
    var f, kept := Matching(q), KeepFirst(s.accepted);
    KeysSandwiched(c, s, view);
    KeepFirstKeepsKeys(s.accepted);
    forall u <- UsersOf(Picked(view, f)) ensures u in NaiveUsers(kept, f) {
      var r :| r in Picked(view, f) && r.event.userId == u;
      assert RowKey(r) in KeysOf(kept);
      var e :| e in kept && KeyOf(e) == RowKey(r);
      MatchingIsOnKeys(q, r.event, e);
    }
    SubsetSize(UsersOf(Picked(view, f)), NaiveUsers(kept, f));
  }

  // ----- when everything has been written -----

  /** Nothing is under way and no batch was abandoned. */
  ghost predicate AllWritten(s: State) {
    |s.workers| == WORKERS && Pending(s) == multiset{} && forall r <- s.resolved :: r.ok
  }

  lemma {:induction false} InResolved(rs: seq<Resolution>, e: Event, ok: bool)
    requires e in ResolvedBag(rs, ok)
    ensures exists r <- rs :: r.ok == ok && e in r.batch
  {
    if rs == [] {
    } else {
      var n := |rs| - 1;
      if rs[n].ok == ok && e in multiset(rs[n].batch) {
        assert rs[n] in rs;
      } else {
        InResolved(rs[..n], e, ok);
      }
    }
  }

  lemma AcceptedWasWritten(c: Config, s: State, e: Event)
    requires Usable(c) && Reachable(c, s) && AllWritten(s) && e in s.accepted
    ensures KeyOf(e) in Keys(Rows(s.table))
  {
    Conservation(c, s);
    assert e in multiset(s.accepted);
    var ok := e in ResolvedBag(s.resolved, true);
    InResolved(s.resolved, e, ok);
    var r :| r in s.resolved && r.ok == ok && e in r.batch;
    ResolvedIsSettled(c, s, r);
  }

  /** No accepted key is missing from the table. */
  ghost predicate AllLanded(s: State) {
    KeysOf(s.accepted) <= Keys(Rows(s.table))
  }

  /** In particular so when every batch succeeded. */
  lemma WrittenIsLanded(c: Config, s: State)
    requires Usable(c) && Reachable(c, s) && AllWritten(s)
    ensures AllLanded(s)
  {
    forall k <- KeysOf(s.accepted) ensures k in Keys(Rows(s.table)) {
      var e :| e in s.accepted && KeyOf(e) == k;
      AcceptedWasWritten(c, s, e);
    }
  }

  lemma LandedHolds(c: Config, s: State)
    requires Usable(c) && Reachable(c, s) && AllLanded(s)
    ensures Holds(Rows(s.table), s.accepted)
  {
    ReachableInv(c, s);
    forall k <- Keys(Rows(s.table)) ensures k in KeysOf(s.accepted) {
      var r :| r in Rows(s.table) && RowKey(r) == k;
      assert r.event in s.accepted;
    }
  }

  lemma NaiveIsInRange(log: seq<Event>, q: Params)
    ensures NaiveCount(KeepFirst(log), Matching(q)) == |InRange(q, KeysOf(log))|
  {
    var kept := KeepFirst(log);
    KeepFirstKeepsKeys(log);
    NaiveCountIsKeys(kept, Matching(q));
    forall k <- InRange(q, KeysOf(log)) ensures k in PickedKeys(kept, Matching(q)) {
      assert k in KeysOf(kept);
      var e :| e in kept && KeyOf(e) == k;
    }
    assert PickedKeys(kept, Matching(q)) <= InRange(q, KeysOf(kept));
    assert PickedKeys(kept, Matching(q)) == InRange(q, KeysOf(log));
  }

  lemma ProperSubsetSize<T>(a: set<T>, b: set<T>, x: T)
    requires a <= b && x in b && x !in a
    ensures |a| < |b|
  {
    SubsetSize(a, b - {x});
  }

  /** A key that has not landed is missing from the total of its own millisecond. */
  lemma MissingKeyShows(c: Config, s: State, view: set<Row>, k: Key)
    requires Usable(c) && Reachable(c, s) && IsFinal(view, Rows(s.table))
    requires k in KeysOf(s.accepted) && k !in Keys(Rows(s.table)) && k.timestampMs + 1 < TWO_64
    ensures exists q :: Count(view, Matching(q)) != NaiveCount(KeepFirst(s.accepted), Matching(q))
  {
    var q := Params(k.eventName, k.timestampMs, k.timestampMs + 1, NoGroup);
    KeysSandwiched(c, s, view);
    FinalKeys(view, Rows(s.table));
    PickedAreInRange(view, q);
    RowsAreKeys(Picked(view, Matching(q)));
    NaiveIsInRange(s.accepted, q);
    ProperSubsetSize(InRange(q, Keys(view)), InRange(q, KeysOf(s.accepted)), k);
    assert Count(view, Matching(q)) != NaiveCount(KeepFirst(s.accepted), Matching(q));
  }

  lemma EveryTotalRight(c: Config, s: State, view: set<Row>, q: Params)
    requires Usable(c) && Reachable(c, s) && IsFinal(view, Rows(s.table)) && AllLanded(s)
    ensures Count(view, Matching(q)) == NaiveCount(KeepFirst(s.accepted), Matching(q))
  {
    LandedHolds(c, s);
    FinalKeys(view, Rows(s.table));
    PickedAreInRange(view, q);
    RowsAreKeys(Picked(view, Matching(q)));
    NaiveIsInRange(s.accepted, q);
  }

  /** At any moment of any run, whatever is still under way: every total is right exactly when
      every accepted key has landed. */
  lemma TotalsRightIff(c: Config, v: Service, s: State, view: set<Row>)
    requires Usable(c) && Serves(c, v, s) && IsFinal(view, Rows(s.table))
    ensures (forall q :: Count(view, Matching(q)) == NaiveCount(KeepFirst(s.accepted), Matching(q))) <==> AllLanded(s)
  {
    ServesReachable(c, v, s);
    if AllLanded(s) {
      forall q ensures Count(view, Matching(q)) == NaiveCount(KeepFirst(s.accepted), Matching(q)) {
        EveryTotalRight(c, s, view, q);
      }
    } else {
      var k :| k in KeysOf(s.accepted) && k !in Keys(Rows(s.table));
      var i :| 0 <= i < |s.accepted| && KeyOf(s.accepted[i]) == k;
      IngestedIsValid(v, s.accepted[i]);
      MissingKeyShows(c, s, view, k);
    }
  }

  // ----- groups -----

  ghost function TextsOf(log: seq<Event>): set<string> {
    set e <- log :: PayloadText(PayloadOf(e))
  }

  /** The dedup key of these events tells their payloads apart. */
  ghost predicate Separable(v: Service, log: seq<Event>) {
    && CollisionFree(v.hash, TextsOf(log))
    && forall e <- log :: NulFree(e.channel) && NulFree(e.campaignId) && (forall t <- e.tags :: NulFree(t)) && NulFree(OrEmpty(e.priority))
  }

  lemma KeySeparates(v: Service, log: seq<Event>, d: Event, e: Event)
    requires Separable(v, log) && AllIngested(v, log) && d in log && e in log && KeyOf(d) == KeyOf(e)
    ensures d.channel == e.channel && d.campaignId == e.campaignId
  {
    IngestedIsValid(v, d);
    IngestedIsValid(v, e);
    assert PayloadText(PayloadOf(d)) in TextsOf(log) && PayloadText(PayloadOf(e)) in TextsOf(log);
    TextSeparatesNulFree(PayloadOf(d), PayloadOf(e));
  }

  lemma GroupsRespectKeys(v: Service, log: seq<Event>, q: Params, dim: GroupBy, g: GroupKey)
    requires AllIngested(v, log)
    requires dim.ByChannel? || dim.ByCampaign? ==> Separable(v, log)
    ensures Respects(InGroup(q, dim, g), log)
  {
    forall d, e | d in log && e in log && KeyOf(d) == KeyOf(e) ensures GroupOf(dim, d) == GroupOf(dim, e) {
      if dim.ByChannel? || dim.ByCampaign? { KeySeparates(v, log, d, e); }
    }
  }

  /** A result is what a naive reader would report from the log: each key counted once. */
  ghost predicate ReportsLog(res: MetricResult, q: Params, log: seq<Event>) {
    && res.params == q
    && res.total == NaiveCount(KeepFirst(log), Matching(q))
    && res.unique == |NaiveUsers(KeepFirst(log), Matching(q))|
    && (if q.groupBy.NoGroup? then res.groups == [] else IsNaiveTable(res.groups, KeepFirst(log), q, q.groupBy))
  }

  /** Once every accepted key has landed, every truthful answer over any FINAL view is
      the naive report of the accepted log, however the events were interleaved, batched,
      reordered, retried after half-failed writes and merged. Grouping by channel or campaign
      also needs a key that tells payloads apart. */
  lemma PipelineReportsTheLog(c: Config, v: Service, s: State, view: set<Row>, q: Params, res: MetricResult)
    requires Usable(c) && Serves(c, v, s) && AllLanded(s) && IsFinal(view, Rows(s.table))
    requires q.groupBy.ByChannel? || q.groupBy.ByCampaign? ==> Separable(v, s.accepted)
    ensures Truthful(res, q, view) <==> ReportsLog(res, q, s.accepted)
  {
    var rows, log := Rows(s.table), s.accepted;
    ServesReachable(c, v, s);
    LandedHolds(c, s);
    forall d, e | KeyOf(d) == KeyOf(e) ensures Picks(Matching(q), d) <==> Picks(Matching(q), e) { MatchingIsOnKeys(q, d, e); }
    AggregatesAgree(view, rows, log, Matching(q));
    forall g ensures Respects(InGroup(q, q.groupBy, g), log) { GroupsRespectKeys(v, log, q, q.groupBy, g); }
    GroupTablesAgree(res.groups, view, rows, log, q, q.groupBy);
  }

  /** The same from the caller's side: if both statements are answered in full and no row fails to
      scan, `Query` succeeds with the naive report of the log. */
  lemma QueryReportsTheLog(c: Config, v: Service, s: State, view: set<Row>, q: Params,
                           totals: Stream<Totals>, groups: Stream<GroupResult>)
    requires Usable(c) && Serves(c, v, s) && AllLanded(s) && IsFinal(view, Rows(s.table))
    requires q.groupBy.ByChannel? || q.groupBy.ByCampaign? ==> Separable(v, s.accepted)
    requires Carries(q, view, totals, groups) && !q.groupBy.Unsupported?
    requires totals.Streamed? && totals.delivered == 1 && totals.scanFailsAt.None?
    requires !q.groupBy.NoGroup? ==>
      groups.Streamed? && groups.delivered == |groups.rows| && groups.scanFailsAt.None?
    ensures Answer(q, totals, groups).Ok? && ReportsLog(Answer(q, totals, groups).value, q, s.accepted)
  {
    TruthfulIff(q, view, totals, groups);
    PipelineReportsTheLog(c, v, s, view, q, Answer(q, totals, groups).value);
  }

  /** And whenever `Query` succeeds, its result is the naive report exactly when both streams
      delivered every row that counts. */
  lemma SuccessReportsTheLogIff(c: Config, v: Service, s: State, view: set<Row>, q: Params,
                           totals: Stream<Totals>, groups: Stream<GroupResult>)
    requires Usable(c) && Serves(c, v, s) && AllLanded(s) && IsFinal(view, Rows(s.table))
    requires q.groupBy.ByChannel? || q.groupBy.ByCampaign? ==> Separable(v, s.accepted)
    requires Carries(q, view, totals, groups) && Answer(q, totals, groups).Ok?
    ensures ReportsLog(Answer(q, totals, groups).value, q, s.accepted) <==>
      && (totals.delivered == 1 || Count(view, Matching(q)) == 0)
      && (q.groupBy.NoGroup? || groups.delivered == |groups.rows|)
  {
    TruthfulIff(q, view, totals, groups);
    PipelineReportsTheLog(c, v, s, view, q, Answer(q, totals, groups).value);
  }
}
