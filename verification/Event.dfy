/** internal/domain/event.go: validation, timestamp normalisation and the conversion of an
    incoming event to a stored one. The clock reading and the hash function are parameters;
    Go's fixed-width conversions are written out. */
module Events {
  import opened Arithmetic
  import opened Results
  import opened Strings
  import opened Payloads
  import opened JsonValues
  import J = CanonicalJson

  const MS_THRESHOLD := 1_000_000_000_000

  type Hash = string -> UInt64

  datatype RawEvent = RawEvent(
    eventName: string, userId: string, timestamp: Int64, channel: string, campaignId: string,
    tags: Option<seq<string>>, priority: Option<string>, metadata: Option<map<string, Json>>)

  datatype Event = Event(
    eventName: string, userId: string, timestampMs: UInt64, payloadHash: UInt64, channel: string,
    campaignId: string, tags: seq<string>, priority: Option<string>, metadata: string)

  datatype ValidationError =
    | RawEventNil
    | EventNameTooLong
    | EventNameMissing
    | UserIdMissing
    | TimestampNonPositive
    | TimestampTooFuture
    | TimestampTooPast

  /** The conversion `uint64(i)`. */
  function Unsigned(i: Int64): UInt64 {
    i % TWO_64
  }

  // ----- timestamps -----

  function NormalizeTimestamp(ts: Int64): UInt64 {
    if ts < MS_THRESHOLD then Unsigned(ts) * 1000 % TWO_64 else Unsigned(ts)
  }

  /** The two bounds `Validate` compares with, in unsigned 64-bit arithmetic. */
  predicate TooFuture(ts: UInt64, now: UInt64, maxFuture: Int64) {
    ts > (now + Unsigned(maxFuture)) % TWO_64
  }

  predicate TooPast(ts: UInt64, now: UInt64, maxPast: Int64) {
    ts < (now - Unsigned(maxPast)) % TWO_64
  }

  predicate PassesBounds(ts: UInt64, now: UInt64, maxFuture: Int64, maxPast: Int64) {
    !TooFuture(ts, now, maxFuture) && !TooPast(ts, now, maxPast)
  }

  /** The validation window the design promises, over the integers. */
  predicate InWindow(ts: int, now: int, maxFuture: int, maxPast: int) {
    now - maxPast <= ts <= now + maxFuture
  }

  /** Window lengths are not negative, and the clock reads a non-negative `int64`. */
  ghost predicate Clock(now: UInt64, maxFuture: Int64, maxPast: Int64) {
    now < TWO_63 && maxFuture >= 0 && maxPast >= 0
  }

  lemma BoundsAre(ts: UInt64, now: UInt64, maxFuture: Int64, maxPast: Int64)
    requires Clock(now, maxFuture, maxPast) && maxPast <= now
    ensures TooFuture(ts, now, maxFuture) <==> ts > now + maxFuture
    ensures TooPast(ts, now, maxPast) <==> ts < now - maxPast
  {
  }

  lemma BoundsAreWindow(ts: UInt64, now: UInt64, maxFuture: Int64, maxPast: Int64)
    requires Clock(now, maxFuture, maxPast) && maxPast <= now
    ensures PassesBounds(ts, now, maxFuture, maxPast) <==> InWindow(ts, now, maxFuture, maxPast)
  {
    BoundsAre(ts, now, maxFuture, maxPast);
  }

  /** `now - maxPast` is unsigned: the check is the promised window exactly when the past
      bound does not reach back beyond time zero. */
  lemma BoundsAreWindowIff(now: UInt64, maxFuture: Int64, maxPast: Int64)
    requires Clock(now, maxFuture, maxPast)
    ensures (forall ts: UInt64 :: PassesBounds(ts, now, maxFuture, maxPast) <==> InWindow(ts, now, maxFuture, maxPast))
      <==> maxPast <= now
  {
    if maxPast <= now {
      forall ts: UInt64 ensures PassesBounds(ts, now, maxFuture, maxPast) <==> InWindow(ts, now, maxFuture, maxPast) {
        BoundsAreWindow(ts, now, maxFuture, maxPast);
      }
    } else {
      assert !PassesBounds(now, now, maxFuture, maxPast) && InWindow(now, now, maxFuture, maxPast);
    }
  }

  lemma NormalizedIs(ts: Int64)
    requires 0 < ts
    ensures NormalizeTimestamp(ts) == if ts < MS_THRESHOLD then 1000 * ts else ts
  {
  }

  /** And then the wrapped bound lies beyond every normalised timestamp: a past bound that reaches
      back beyond time zero refuses everything, where the window would refuse nothing old. */
  lemma PastBeyondZeroRefuses(ts: Int64, now: UInt64, maxFuture: Int64, maxPast: Int64)
    requires Clock(now, maxFuture, maxPast) && 0 < ts
    ensures now < maxPast ==> TooPast(NormalizeTimestamp(ts), now, maxPast)
  {
    NormalizedIs(ts);
  }

  /** A second and a millisecond reading of the same instant normalise alike exactly for
      10^9 <= s < 10^12. */
  lemma SameInstantIff(s: Int64)
    requires 0 < s && 1000 * s < TWO_63
    ensures NormalizeTimestamp(s) == NormalizeTimestamp(1000 * s) <==> 1_000_000_000 <= s < MS_THRESHOLD
  {
  }

  lemma NormalizeIdempotentIff(ts: Int64)
    requires 0 < ts
    ensures NormalizeTimestamp(ts) < TWO_63
    ensures NormalizeTimestamp(NormalizeTimestamp(ts)) == NormalizeTimestamp(ts) <==> ts >= 1_000_000_000
  {
    NormalizedIs(ts);
    NormalizedIs(NormalizeTimestamp(ts));
  }

  /** A window that starts after 9 September 2001, when millisecond readings reach 10^12. */
  ghost predicate ModernWindow(now: UInt64, maxFuture: Int64, maxPast: Int64) {
    Clock(now, maxFuture, maxPast) && now - maxPast >= MS_THRESHOLD
  }

  ghost predicate TreatedAlike(s: Int64, now: UInt64, maxFuture: Int64, maxPast: Int64)
    requires 0 < s && 1000 * s < TWO_63
  {
    PassesBounds(NormalizeTimestamp(s), now, maxFuture, maxPast)
    <==> PassesBounds(NormalizeTimestamp(1000 * s), now, maxFuture, maxPast)
  }

  /** 1 700 000 s lies in January 1970 and is refused; sent as 1 700 000 000 ms it is taken
      for a number of seconds and accepted as an event of November 2023. */
  lemma UnitsNotAlwaysAlike()
    ensures ModernWindow(1_700_000_000_000, 0, 0)
    ensures !PassesBounds(NormalizeTimestamp(1_700_000), 1_700_000_000_000, 0, 0)
    ensures PassesBounds(NormalizeTimestamp(1_700_000_000), 1_700_000_000_000, 0, 0)
  {
  }

  lemma AlikeUnits(s: Int64, now: UInt64, maxFuture: Int64, maxPast: Int64)
    requires ModernWindow(now, maxFuture, maxPast) && 0 < s && 1000 * s < TWO_63
    requires s < 1_000_000 || 1_000_000_000 <= s < MS_THRESHOLD
    ensures TreatedAlike(s, now, maxFuture, maxPast)
  {
    NormalizedIs(s);
    NormalizedIs(1000 * s);
    BoundsAreWindow(NormalizeTimestamp(s), now, maxFuture, maxPast);
    BoundsAreWindow(NormalizeTimestamp(1000 * s), now, maxFuture, maxPast);
  }

  lemma UnlikeUnits(s: Int64, now: UInt64)
    requires 0 < s && 1000 * s < TWO_63 && !(s < 1_000_000 || 1_000_000_000 <= s < MS_THRESHOLD)
    requires now == if s < 1_000_000_000 then 1_000_000 * s else s
    ensures ModernWindow(now, 0, 0) && !TreatedAlike(s, now, 0, 0)
  {
    NormalizedIs(s);
    NormalizedIs(1000 * s);
    BoundsAreWindow(NormalizeTimestamp(s), now, 0, 0);
    BoundsAreWindow(NormalizeTimestamp(1000 * s), now, 0, 0);
  }

  /** The two units are accepted or rejected alike under every modern window exactly for
      s < 10^6 and for 10^9 <= s < 10^12. */
  lemma UnitsAlikeIff(s: Int64)
    requires 0 < s && 1000 * s < TWO_63
    ensures (forall now: UInt64, maxFuture: Int64, maxPast: Int64 ::
               ModernWindow(now, maxFuture, maxPast) ==> TreatedAlike(s, now, maxFuture, maxPast))
      <==> s < 1_000_000 || 1_000_000_000 <= s < MS_THRESHOLD
  {
    if s < 1_000_000 || 1_000_000_000 <= s < MS_THRESHOLD {
      forall now: UInt64, maxFuture: Int64, maxPast: Int64 | ModernWindow(now, maxFuture, maxPast)
        ensures TreatedAlike(s, now, maxFuture, maxPast)
      {
        AlikeUnits(s, now, maxFuture, maxPast);
      }
    } else {
      UnlikeUnits(s, if s < 1_000_000_000 then 1_000_000 * s else s);
    }
  }

  // ----- validation -----

  /** What `Validate` lets through. */
  ghost predicate Acceptable(raw: RawEvent, now: UInt64, maxFuture: Int64, maxPast: Int64) {
    && Utf8Length(raw.eventName) <= 100
    && !Blank(raw.eventName)
    && !Blank(raw.userId)
    && raw.timestamp > 0
    && PassesBounds(NormalizeTimestamp(raw.timestamp), now, maxFuture, maxPast)
  }

  /** `errs = append(errs, err)` when the rule is broken. */
  function Report(errs: seq<ValidationError>, broken: bool, err: ValidationError): seq<ValidationError> {
    if broken then errs + [err] else errs
  }

  lemma ReportAdds(errs: seq<ValidationError>, broken: bool, err: ValidationError, x: ValidationError)
    ensures x in Report(errs, broken, err) <==> x in errs || (broken && x == err)
  {
  }

  function ValidateEventName(raw: RawEvent, errs: seq<ValidationError>): seq<ValidationError> {
    Report(errs, Utf8Length(raw.eventName) > 100, EventNameTooLong)
  }

  /** The rule behind each error, in the order the errors are reported. */
  ghost predicate Breaks(err: ValidationError, raw: RawEvent, now: UInt64, maxFuture: Int64, maxPast: Int64) {
    match err
    case RawEventNil => false
    case EventNameTooLong => Utf8Length(raw.eventName) > 100
    case EventNameMissing => Blank(raw.eventName)
    case UserIdMissing => Blank(raw.userId)
    case TimestampNonPositive => raw.timestamp <= 0
    case TimestampTooFuture => raw.timestamp > 0 && TooFuture(NormalizeTimestamp(raw.timestamp), now, maxFuture)
    case TimestampTooPast => raw.timestamp > 0 && TooPast(NormalizeTimestamp(raw.timestamp), now, maxPast)
  }

  /** The errors in the order they are reported, from the outcome of each rule. */
  ghost function Collected(outcome: ValidationError -> bool): seq<ValidationError> {
    var r := Report([], outcome(EventNameTooLong), EventNameTooLong);
    var r := Report(r, outcome(EventNameMissing), EventNameMissing);
    var r := Report(r, outcome(UserIdMissing), UserIdMissing);
    var r := Report(r, outcome(TimestampNonPositive), TimestampNonPositive);
    var r := Report(r, outcome(TimestampTooFuture), TimestampTooFuture);
    Report(r, outcome(TimestampTooPast), TimestampTooPast)
  }

  /** The place of an error in the report. */
  function Rank(err: ValidationError): nat {
    match err
    case RawEventNil => 0
    case EventNameTooLong => 1
    case EventNameMissing => 2
    case UserIdMissing => 3
    case TimestampNonPositive => 4
    case TimestampTooFuture => 5
    case TimestampTooPast => 6
  }

  /** Each error comes after the ones before it, and all of them before the place `below`. */
  ghost predicate InOrder(errs: seq<ValidationError>, below: nat) {
    errs == [] ||
    var last := errs[|errs| - 1];
    Rank(last) < below && InOrder(errs[..|errs| - 1], Rank(last))
  }

  lemma ReportInOrder(errs: seq<ValidationError>, broken: bool, err: ValidationError)
    requires InOrder(errs, Rank(err))
    ensures InOrder(Report(errs, broken, err), Rank(err) + 1)
  {
    if broken { assert (errs + [err])[..|errs|] == errs; }
  }

  lemma {:induction false} InOrderPairwise(errs: seq<ValidationError>, below: nat)
    requires InOrder(errs, below)
    ensures forall i :: 0 <= i < |errs| ==> Rank(errs[i]) < below
    ensures forall i, j :: 0 <= i < j < |errs| ==> Rank(errs[i]) < Rank(errs[j])
  {
    if errs == [] {
    } else {
      InOrderPairwise(errs[..|errs| - 1], Rank(errs[|errs| - 1]));
    }
  }

  lemma CollectedInOrder(outcome: ValidationError -> bool)
    ensures forall i, j :: 0 <= i < j < |Collected(outcome)| ==> Rank(Collected(outcome)[i]) < Rank(Collected(outcome)[j])
  {
    var r1 := Report([], outcome(EventNameTooLong), EventNameTooLong);
    var r2 := Report(r1, outcome(EventNameMissing), EventNameMissing);
    var r3 := Report(r2, outcome(UserIdMissing), UserIdMissing);
    var r4 := Report(r3, outcome(TimestampNonPositive), TimestampNonPositive);
    var r5 := Report(r4, outcome(TimestampTooFuture), TimestampTooFuture);
    ReportInOrder([], outcome(EventNameTooLong), EventNameTooLong);
    ReportInOrder(r1, outcome(EventNameMissing), EventNameMissing);
    ReportInOrder(r2, outcome(UserIdMissing), UserIdMissing);
    ReportInOrder(r3, outcome(TimestampNonPositive), TimestampNonPositive);
    ReportInOrder(r4, outcome(TimestampTooFuture), TimestampTooFuture);
    ReportInOrder(r5, outcome(TimestampTooPast), TimestampTooPast);
    InOrderPairwise(Collected(outcome), 7);
  }

  lemma CollectedExactly(outcome: ValidationError -> bool, err: ValidationError)
    requires !outcome(RawEventNil)
    ensures err in Collected(outcome) <==> outcome(err)
  {
    var r1 := Report([], outcome(EventNameTooLong), EventNameTooLong);
    var r2 := Report(r1, outcome(EventNameMissing), EventNameMissing);
    var r3 := Report(r2, outcome(UserIdMissing), UserIdMissing);
    var r4 := Report(r3, outcome(TimestampNonPositive), TimestampNonPositive);
    var r5 := Report(r4, outcome(TimestampTooFuture), TimestampTooFuture);
    ReportAdds([], outcome(EventNameTooLong), EventNameTooLong, err);
    ReportAdds(r1, outcome(EventNameMissing), EventNameMissing, err);
    ReportAdds(r2, outcome(UserIdMissing), UserIdMissing, err);
    ReportAdds(r3, outcome(TimestampNonPositive), TimestampNonPositive, err);
    ReportAdds(r4, outcome(TimestampTooFuture), TimestampTooFuture, err);
    ReportAdds(r5, outcome(TimestampTooPast), TimestampTooPast, err);
  }

  lemma AcceptableIffNoRuleBroken(raw: RawEvent, now: UInt64, maxFuture: Int64, maxPast: Int64)
    ensures Acceptable(raw, now, maxFuture, maxPast)
      <==> forall err :: !Breaks(err, raw, now, maxFuture, maxPast)
  {
    if forall err :: !Breaks(err, raw, now, maxFuture, maxPast) {
      assert !Breaks(EventNameTooLong, raw, now, maxFuture, maxPast) && !Breaks(EventNameMissing, raw, now, maxFuture, maxPast)
        && !Breaks(UserIdMissing, raw, now, maxFuture, maxPast) && !Breaks(TimestampNonPositive, raw, now, maxFuture, maxPast)
        && !Breaks(TimestampTooFuture, raw, now, maxFuture, maxPast) && !Breaks(TimestampTooPast, raw, now, maxFuture, maxPast);
    }
  }

  /** The rules spelled out. */
  lemma TextRulesAre(raw: RawEvent, now: UInt64, maxFuture: Int64, maxPast: Int64)
    ensures Breaks(EventNameTooLong, raw, now, maxFuture, maxPast) <==> |Encode(raw.eventName)| > 100
    ensures Breaks(EventNameMissing, raw, now, maxFuture, maxPast) <==> forall c <- raw.eventName :: IsSpace(c)
    ensures Breaks(UserIdMissing, raw, now, maxFuture, maxPast) <==> forall c <- raw.userId :: IsSpace(c)
  {
    Utf8LengthIsBytes(raw.eventName);
  }

  lemma TimeRulesAre(raw: RawEvent, now: UInt64, maxFuture: Int64, maxPast: Int64)
    requires raw.timestamp > 0 && Clock(now, maxFuture, maxPast) && maxPast <= now
    ensures var ms := NormalizeTimestamp(raw.timestamp);
      && (Breaks(TimestampTooFuture, raw, now, maxFuture, maxPast) <==> ms > now + maxFuture)
      && (Breaks(TimestampTooPast, raw, now, maxFuture, maxPast) <==> ms < now - maxPast)
  {
    BoundsAre(NormalizeTimestamp(raw.timestamp), now, maxFuture, maxPast);
  }

  /** The errors, collected as the code does, are exactly the broken rules. */
  lemma CollectedBreaks(raw: RawEvent, now: UInt64, maxFuture: Int64, maxPast: Int64, errs: seq<ValidationError>)
    requires errs == Collected(err => Breaks(err, raw, now, maxFuture, maxPast))
    ensures forall err :: err in errs <==> Breaks(err, raw, now, maxFuture, maxPast)
    ensures errs == [] <==> Acceptable(raw, now, maxFuture, maxPast)
    ensures forall i, j :: 0 <= i < j < |errs| ==> Rank(errs[i]) < Rank(errs[j])
  {
    var outcome := err => Breaks(err, raw, now, maxFuture, maxPast);
    forall err ensures err in errs <==> outcome(err) {
      CollectedExactly(outcome, err);
    }
    CollectedInOrder(outcome);
    AcceptableIffNoRuleBroken(raw, now, maxFuture, maxPast);
    assert errs == [] || errs[0] in errs;
  }

  /** Reports every rule the event breaks and no other; no error means the event passed. */
  method Validate(e: Option<RawEvent>, now: UInt64, maxFuture: Int64, maxPast: Int64) returns (errs: seq<ValidationError>)
    ensures e.None? ==> errs == [RawEventNil]
    ensures e.Some? ==> (errs == [] <==> Acceptable(e.value, now, maxFuture, maxPast))
    ensures e.Some? ==> forall err :: err in errs <==> Breaks(err, e.value, now, maxFuture, maxPast)
    ensures e.Some? ==>
      && (EventNameTooLong in errs <==> |Encode(e.value.eventName)| > 100)
      && (EventNameMissing in errs <==> forall c <- e.value.eventName :: IsSpace(c))
      && (UserIdMissing in errs <==> forall c <- e.value.userId :: IsSpace(c))
      && (TimestampNonPositive in errs <==> e.value.timestamp <= 0)
    ensures e.Some? && e.value.timestamp > 0 && Clock(now, maxFuture, maxPast) && maxPast <= now ==>
      var ms := NormalizeTimestamp(e.value.timestamp);
      && (TimestampTooFuture in errs <==> ms > now + maxFuture)
      && (TimestampTooPast in errs <==> ms < now - maxPast)
    ensures forall i, j :: 0 <= i < j < |errs| ==> Rank(errs[i]) < Rank(errs[j])
  {
    if e.None? { return [RawEventNil]; }
    var raw := e.value;
    TrimSpaceEmptyIffBlank(raw.eventName);
    TrimSpaceEmptyIffBlank(raw.userId);
    errs := ValidateEventName(raw, []);
    errs := Report(errs, TrimSpace(raw.eventName) == "", EventNameMissing);
    errs := Report(errs, TrimSpace(raw.userId) == "", UserIdMissing);
    if raw.timestamp <= 0 {
      errs := Report(errs, true, TimestampNonPositive);
    } else {
      var tsMs := NormalizeTimestamp(raw.timestamp);
      errs := Report(errs, TooFuture(tsMs, now, maxFuture), TimestampTooFuture);
      errs := Report(errs, TooPast(tsMs, now, maxPast), TimestampTooPast);
    }
    assert errs == Collected(err => Breaks(err, raw, now, maxFuture, maxPast));
    CollectedBreaks(raw, now, maxFuture, maxPast, errs);
    TextRulesAre(raw, now, maxFuture, maxPast);
    if raw.timestamp > 0 && Clock(now, maxFuture, maxPast) && maxPast <= now { TimeRulesAre(raw, now, maxFuture, maxPast); }
  }

  // ----- conversion -----

  function OrEmpty(o: Option<string>): string {
    if o.Some? then o.value else ""
  }

  function TagsOf(raw: RawEvent): seq<string> {
    if raw.tags.Some? then raw.tags.value else []
  }

  ghost predicate Marshalable(raw: RawEvent) {
    raw.metadata.Some? ==> J.Supported(Map(raw.metadata.value))
  }

  ghost function MetadataText(raw: RawEvent): string {
    if raw.metadata.Some? then J.Text(Map(raw.metadata.value)) else ""
  }

  ghost function RawPayload(raw: RawEvent): Payload {
    Payload(raw.channel, raw.campaignId, TagsOf(raw), OrEmpty(raw.priority), MetadataText(raw))
  }

  /** The stored form of an accepted event. */
  ghost function EventOf(hash: Hash, raw: RawEvent): Event {
    Event(raw.eventName, raw.userId, NormalizeTimestamp(raw.timestamp), hash(PayloadText(RawPayload(raw))),
          raw.channel, raw.campaignId, TagsOf(raw), raw.priority, MetadataText(raw))
  }

  /** Metadata goes through `json.Marshal`, which prints a decoded map as `canonicalJSON` does. */
  method ToEvent(hash: Hash, raw: RawEvent) returns (r: Result<Event, J.MarshalError>)
    ensures r.Ok? <==> Marshalable(raw)
    ensures r.Ok? ==> r.value == EventOf(hash, raw)
    ensures r.Ok? ==>
      var e := r.value;
      && e.eventName == raw.eventName && e.userId == raw.userId
      && (raw.timestamp > 0 ==>
           e.timestampMs == if raw.timestamp < 1_000_000_000_000 then 1000 * raw.timestamp else raw.timestamp)
      && e.channel == raw.channel && e.campaignId == raw.campaignId && e.priority == raw.priority
      && e.tags == (if raw.tags.Some? then raw.tags.value else [])
      && (raw.metadata.None? ==> e.metadata == "")
      && (raw.metadata.Some? ==> Parse(e.metadata) == Some(Map(raw.metadata.value)))
      && e.payloadHash == hash(e.channel + [NUL] + e.campaignId + [NUL] + Closed(Sorted(e.tags))
                               + (if e.priority.Some? then e.priority.value else "") + [NUL] + e.metadata)
  {
    var metadata := "";
    if raw.metadata.Some? {
      var b := J.CanonicalJSON(Map(raw.metadata.value));
      if b.Err? { return Err(b.error); }
      metadata := b.value;
    }
    if raw.metadata.Some? { J.ParseOfText(Map(raw.metadata.value)); }
    var tags := if raw.tags.Some? then raw.tags.value else [];
    if raw.timestamp > 0 { NormalizedIs(raw.timestamp); }
    var tsMs := NormalizeTimestamp(raw.timestamp);
    var priority := "";
    if raw.priority.Some? { priority := raw.priority.value; }
    var slice := new string[|tags|](i requires 0 <= i < |tags| => tags[i]);
    assert slice[..] == tags;
    var h := ComputePayloadHash(hash, raw.channel, raw.campaignId, slice, priority, metadata);
    return Ok(Event(raw.eventName, raw.userId, tsMs, h, raw.channel, raw.campaignId, tags, raw.priority, metadata));
  }

  // ----- the dedup key -----

  datatype Key = Key(eventName: string, userId: string, timestampMs: UInt64, payloadHash: UInt64)

  function KeyOf(e: Event): Key {
    Key(e.eventName, e.userId, e.timestampMs, e.payloadHash)
  }

  function PayloadOf(e: Event): Payload {
    Payload(e.channel, e.campaignId, e.tags, OrEmpty(e.priority), e.metadata)
  }

  ghost predicate WellHashed(hash: Hash, e: Event) {
    e.payloadHash == hash(PayloadText(PayloadOf(e)))
  }

  /** The hash gives different numbers to the different texts of a set. */
  ghost predicate CollisionFree(hash: Hash, texts: set<string>) {
    forall s, t :: s in texts && t in texts && hash(s) == hash(t) ==> s == t
  }

  ghost predicate NulFreeRaw(raw: RawEvent) {
    NulFree(raw.channel) && NulFree(raw.campaignId) && (forall t <- TagsOf(raw) :: NulFree(t)) && NulFree(OrEmpty(raw.priority))
  }

  lemma MetadataNulFree(raw: RawEvent)
    ensures NulFree(MetadataText(raw))
  {
    if raw.metadata.Some? { J.TextPrintable(Map(raw.metadata.value)); }
  }

  lemma MetadataTextEqualIff(a: RawEvent, b: RawEvent)
    requires Marshalable(a) && Marshalable(b)
    ensures MetadataText(a) == MetadataText(b) <==> a.metadata == b.metadata
  {
    if a.metadata.Some? { J.TextFirst(Map(a.metadata.value)); }
    if b.metadata.Some? { J.TextFirst(Map(b.metadata.value)); }
    if a.metadata.Some? && b.metadata.Some? {
      J.TextEqualIffEqual(Map(a.metadata.value), Map(b.metadata.value));
    }
  }

  /** What a dedup key identifies: on NUL-free fields, and where the hash does not collide, two
      accepted events share a key exactly when they agree on name, user, instant, channel,
      campaign, tags up to order, priority (an absent one counts as empty) and metadata value. */
  lemma KeyIdentifies(hash: Hash, a: RawEvent, b: RawEvent)
    requires Marshalable(a) && Marshalable(b) && NulFreeRaw(a) && NulFreeRaw(b)
    requires CollisionFree(hash, {PayloadText(RawPayload(a)), PayloadText(RawPayload(b))})
    ensures KeyOf(EventOf(hash, a)) == KeyOf(EventOf(hash, b)) <==>
      && a.eventName == b.eventName && a.userId == b.userId
      && NormalizeTimestamp(a.timestamp) == NormalizeTimestamp(b.timestamp)
      && a.channel == b.channel && a.campaignId == b.campaignId
      && multiset(TagsOf(a)) == multiset(TagsOf(b))
      && OrEmpty(a.priority) == OrEmpty(b.priority)
      && a.metadata == b.metadata
  {
    MetadataNulFree(a);
    MetadataNulFree(b);
    MetadataTextEqualIff(a, b);
    TextSeparatesNulFree(RawPayload(a), RawPayload(b));
  }

  /** Sending the same event in seconds or in milliseconds makes no difference to a modern
      window: if the seconds form is accepted, so is the other one, under the same key. */
  lemma SecondsFormSameKey(hash: Hash, raw: RawEvent, now: UInt64, maxFuture: Int64, maxPast: Int64)
    requires ModernWindow(now, maxFuture, maxPast) && raw.timestamp < MS_THRESHOLD
    requires Acceptable(raw, now, maxFuture, maxPast)
    ensures var ms := raw.(timestamp := 1000 * raw.timestamp);
      Acceptable(ms, now, maxFuture, maxPast) && EventOf(hash, ms) == EventOf(hash, raw)
  {
    BoundsAreWindow(NormalizeTimestamp(raw.timestamp), now, maxFuture, maxPast);
    SameInstantIff(raw.timestamp);
  }

  /** What holds of every event the ingestor lets through. */
  ghost predicate ValidRow(e: Event, now: int, maxFuture: int, maxPast: int) {
    Utf8Length(e.eventName) <= 100 && !Blank(e.eventName) && !Blank(e.userId)
    && InWindow(e.timestampMs, now, maxFuture, maxPast)
  }

  lemma AcceptedIsValid(hash: Hash, raw: RawEvent, now: UInt64, maxFuture: Int64, maxPast: Int64)
    requires Clock(now, maxFuture, maxPast) && Acceptable(raw, now, maxFuture, maxPast)
    ensures ValidRow(EventOf(hash, raw), now, maxFuture, maxPast) && WellHashed(hash, EventOf(hash, raw))
  {
    PastBeyondZeroRefuses(raw.timestamp, now, maxFuture, maxPast);
    BoundsAreWindow(NormalizeTimestamp(raw.timestamp), now, maxFuture, maxPast);
  }
}
