/** internal/ingest/usecase.go and the bulk loop of internal/handler/bulk.go. Whether the
    publisher admits an event depends on what the other goroutines do, so each call takes its
    clock reading and its admission as parameters. */
module Ingestion {
  import opened Arithmetic
  import opened Results
  import opened Events

  datatype IngestError = NilEvent | Invalid(errs: seq<ValidationError>) | Unprintable | PublishFailed

  /** What Ingest decides about an event. */
  datatype Verdict = Accepted | InvalidEvent | UnprintableEvent | Refused

  /** The publisher seam: admits an event or fails, and keeps what it admitted in order. */
  class Publisher {
    var accepted: seq<Event>

    constructor ()
      ensures accepted == []
    {
      accepted := [];
    }

    method Publish(e: Event, admits: bool) returns (ok: bool)
      modifies this
      ensures ok == admits
      ensures accepted == if ok then old(accepted) + [e] else old(accepted)
    {
      if admits { accepted := accepted + [e]; }
      ok := admits;
    }
  }

  /** One call: the event, the clock and the publisher's answer. */
  datatype Call = Call(raw: RawEvent, now: UInt64, admits: bool)

  datatype Code = ValidationCode | PublishFailedCode | InternalCode

  function CodeOf(v: Verdict): Code {
    if v.InvalidEvent? then ValidationCode else if v.Refused? then PublishFailedCode else InternalCode
  }

  datatype ItemError = ItemError(index: int, code: Code)

  datatype BulkResponse = BulkResponse(accepted: nat, rejected: nat, errors: seq<ItemError>)

  /** 202, 503, 400 and 413. */
  datatype BulkReply = Taken(response: BulkResponse) | Unavailable | BadRequest | TooLarge

  ghost predicate HasCode(errors: seq<ItemError>, code: Code) {
    exists i :: 0 <= i < |errors| && errors[i].code == code
  }

  class UseCase {
    const publisher: Publisher
    const hash: Hash
    const maxFuture: Int64
    const maxPast: Int64

    constructor (publisher: Publisher, hash: Hash, maxFuture: Int64, maxPast: Int64)
      ensures this.publisher == publisher && this.hash == hash
      ensures this.maxFuture == maxFuture && this.maxPast == maxPast
    {
      this.publisher, this.hash, this.maxFuture, this.maxPast := publisher, hash, maxFuture, maxPast;
    }

    ghost function Judge(call: Call): Verdict {
      if !Acceptable(call.raw, call.now, maxFuture, maxPast) then InvalidEvent
      else if !Marshalable(call.raw) then UnprintableEvent
      else if !call.admits then Refused
      else Accepted
    }

    /** Validates, converts, publishes; the first failure ends the call with nothing published. */
    method Ingest(raw: Option<RawEvent>, now: UInt64, admits: bool) returns (err: Option<IngestError>)
      modifies publisher
      ensures raw.None? ==> err == Some(NilEvent) && publisher.accepted == old(publisher.accepted)
      ensures raw.Some? ==>
        match Judge(Call(raw.value, now, admits))
        case Accepted => err.None? && publisher.accepted == old(publisher.accepted) + [EventOf(hash, raw.value)]
        case InvalidEvent => err.Some? && err.value.Invalid? && err.value.errs != []
                             && publisher.accepted == old(publisher.accepted)
        case UnprintableEvent => err == Some(Unprintable) && publisher.accepted == old(publisher.accepted)
        case Refused => err == Some(PublishFailed) && publisher.accepted == old(publisher.accepted)
      ensures raw.Some? ==>
        var valid, printable := Acceptable(raw.value, now, maxFuture, maxPast), Marshalable(raw.value);
        && (err.None? <==> valid && printable && admits)
        && (err.Some? && err.value.Invalid? <==> !valid)
        && (err == Some(Unprintable) <==> valid && !printable)
        && (err == Some(PublishFailed) <==> valid && printable && !admits)
    {
      if raw.None? {
        return Some(NilEvent);
      }
      var errs := Validate(raw, now, maxFuture, maxPast);
      if errs != [] {
        return Some(Invalid(errs));
      }
      var ev := ToEvent(hash, raw.value);
      if ev.Err? {
        return Some(Unprintable);
      }
      var ok := publisher.Publish(ev.value, admits);
      err := if ok then None else Some(PublishFailed);
    }

    // ----- bulk -----

    ghost function Admitted(calls: seq<Call>): seq<Event> {
      if calls == [] then []
      else
        var last := calls[|calls| - 1];
        Admitted(calls[..|calls| - 1]) + if Judge(last).Accepted? then [EventOf(hash, last.raw)] else []
    }

    ghost function Errors(calls: seq<Call>): seq<ItemError> {
      if calls == [] then []
      else
        var n := |calls| - 1;
        Errors(calls[..n]) + if Judge(calls[n]).Accepted? then [] else [ItemError(n, CodeOf(Judge(calls[n])))]
    }

    /** The loop over the items. */
    method IngestEach(calls: seq<Call>) returns (resp: BulkResponse)
      modifies publisher
      ensures publisher.accepted == old(publisher.accepted) + Admitted(calls)
      ensures resp == BulkResponse(|Admitted(calls)|, |Errors(calls)|, Errors(calls))
    {
      var accepted, rejected := 0, 0;
      var errors: seq<ItemError> := [];
      for i := 0 to |calls|
        invariant accepted == |Admitted(calls[..i])| && rejected == |Errors(calls[..i])| && errors == Errors(calls[..i])
        invariant publisher.accepted == old(publisher.accepted) + Admitted(calls[..i])
      {
        assert calls[..i + 1][..i] == calls[..i];
        var err := Ingest(Some(calls[i].raw), calls[i].now, calls[i].admits);
        if err.Some? {
          rejected := rejected + 1;
          errors := errors + [ItemError(i, if err.value.Invalid? then ValidationCode
                                           else if err.value.PublishFailed? then PublishFailedCode
                                           else InternalCode)];
        } else {
          accepted := accepted + 1;
        }
      }
      assert calls[..|calls|] == calls;
      resp := BulkResponse(accepted, rejected, errors);
    }

    /** The scan for a refused publish. */
    method PublishFailedAmong(errors: seq<ItemError>) returns (publishFailed: bool)
      ensures publishFailed <==> HasCode(errors, PublishFailedCode)
    {
      publishFailed := false;
      for j := 0 to |errors|
        invariant publishFailed == HasCode(errors[..j], PublishFailedCode)
      {
        if errors[j].code == PublishFailedCode {
          publishFailed := true;
          break;
        }
      }
      assert errors[..|errors|] == errors;
    }

    /** Every item is either admitted or has its one error. */
    lemma {:induction false} CountsAddUp(calls: seq<Call>)
      ensures |Admitted(calls)| + |Errors(calls)| == |calls|
    {
      if calls == [] {
      } else {
        CountsAddUp(calls[..|calls| - 1]);
      }
    }

    /** The error that belongs to item `i`. */
    ghost function ErrorOf(calls: seq<Call>, i: nat): ItemError
      requires i < |calls|
    {
      ItemError(i, CodeOf(Judge(calls[i])))
    }

    ghost predicate Rejected(calls: seq<Call>, e: ItemError) {
      0 <= e.index < |calls| && !Judge(calls[e.index]).Accepted? && e == ErrorOf(calls, e.index)
    }

    lemma RejectedStep(calls: seq<Call>, e: ItemError)
      requires calls != []
      ensures var n := |calls| - 1;
        Rejected(calls, e) <==> Rejected(calls[..n], e) || (e == ErrorOf(calls, n) && !Judge(calls[n]).Accepted?)
    {
    }

    lemma ErrorsStep(calls: seq<Call>, e: ItemError)
      requires calls != []
      ensures var n := |calls| - 1;
        e in Errors(calls) <==> e in Errors(calls[..n]) || (e == ErrorOf(calls, n) && !Judge(calls[n]).Accepted?)
    {
    }

    /** The errors are exactly those of the items that were not accepted, each with the code of
        its verdict. */
    lemma {:induction false} ErrorsAreTheRejected(calls: seq<Call>, e: ItemError)
      ensures e in Errors(calls) <==> Rejected(calls, e)
    {
      if calls == [] {
      } else {
        var n := |calls| - 1;
        ErrorsAreTheRejected(calls[..n], e);
        RejectedStep(calls, e);
        ErrorsStep(calls, e);
      }
    }

    lemma {:induction false} ErrorsAscend(calls: seq<Call>)
      ensures forall i, j :: 0 <= i < j < |Errors(calls)| ==> Errors(calls)[i].index < Errors(calls)[j].index
      ensures forall i :: 0 <= i < |Errors(calls)| ==> Errors(calls)[i].index < |calls|
    {
      if calls == [] {
      } else {
        var n := |calls| - 1;
        ErrorsAscend(calls[..n]);
        var rest := Errors(calls[..n]);
        assert Errors(calls) == rest || Errors(calls) == rest + [ErrorOf(calls, n)];
      }
    }

    /** The counts add up, and the errors name exactly the items that were not accepted, in
        order and with the code of their verdict. */
    lemma BulkAccounting(calls: seq<Call>)
      ensures |Admitted(calls)| + |Errors(calls)| == |calls|
      ensures forall i, j :: 0 <= i < j < |Errors(calls)| ==> Errors(calls)[i].index < Errors(calls)[j].index
      ensures forall e :: e in Errors(calls) <==> Rejected(calls, e)
    {
      CountsAddUp(calls);
      ErrorsAscend(calls);
      forall e ensures e in Errors(calls) <==> Rejected(calls, e) {
        ErrorsAreTheRejected(calls, e);
      }
    }

    lemma {:induction false} AdmittedNoneIff(calls: seq<Call>)
      ensures Admitted(calls) == [] <==> forall i :: 0 <= i < |calls| ==> !Judge(calls[i]).Accepted?
    {
      if calls == [] {
      } else {
        var n := |calls| - 1;
        AdmittedNoneIff(calls[..n]);
        assert Admitted(calls) == [] <==> Admitted(calls[..n]) == [] && !Judge(calls[n]).Accepted?;
        assert forall i :: 0 <= i < n ==> calls[..n][i] == calls[i];
      }
    }

    /** Which code is listed. */
    lemma CodeListedIff(calls: seq<Call>, code: Code)
      ensures HasCode(Errors(calls), code) <==>
        exists i :: 0 <= i < |calls| && !Judge(calls[i]).Accepted? && CodeOf(Judge(calls[i])) == code
    {
      BulkAccounting(calls);
      if HasCode(Errors(calls), code) {
        var k :| 0 <= k < |Errors(calls)| && Errors(calls)[k].code == code;
        assert Errors(calls)[k] in Errors(calls);
        assert CodeOf(Judge(calls[Errors(calls)[k].index])) == code;
      }
      if i :| 0 <= i < |calls| && !Judge(calls[i]).Accepted? && CodeOf(Judge(calls[i])) == code {
        assert Rejected(calls, ErrorOf(calls, i));
        assert ErrorOf(calls, i) in Errors(calls);
      }
    }

    /** A 503 means that nothing was admitted and that some item was refused by the publisher; a
        400 that nothing was admitted and none was. Each code stands for one kind of verdict. */
    lemma FailureMeansNothingAdmitted(calls: seq<Call>)
      ensures Admitted(calls) == [] <==> forall i :: 0 <= i < |calls| ==> !Judge(calls[i]).Accepted?
      ensures HasCode(Errors(calls), PublishFailedCode) <==> exists i :: 0 <= i < |calls| && Judge(calls[i]).Refused?
      ensures HasCode(Errors(calls), ValidationCode) <==> exists i :: 0 <= i < |calls| && Judge(calls[i]).InvalidEvent?
      ensures HasCode(Errors(calls), InternalCode) <==> exists i :: 0 <= i < |calls| && Judge(calls[i]).UnprintableEvent?
    {
      AdmittedNoneIff(calls);
      CodeListedIff(calls, PublishFailedCode);
      CodeListedIff(calls, ValidationCode);
      CodeListedIff(calls, InternalCode);
    }

    /** The bulk handler from the decoded event list onwards. */
    method HandleBulk(calls: seq<Call>, maxBulkEvents: int) returns (reply: BulkReply)
      modifies publisher
      ensures calls == [] ==> reply == BadRequest
      ensures reply.TooLarge? <==> |calls| > if maxBulkEvents <= 0 then 1000 else maxBulkEvents
      ensures reply.TooLarge? || calls == [] ==> publisher.accepted == old(publisher.accepted)
      ensures calls != [] && !reply.TooLarge? ==>
        && publisher.accepted == old(publisher.accepted) + Admitted(calls)
        && reply == if Admitted(calls) != [] then Taken(BulkResponse(|Admitted(calls)|, |Errors(calls)|, Errors(calls)))
                    else if HasCode(Errors(calls), PublishFailedCode) then Unavailable
                    else BadRequest
      ensures calls != [] && !reply.TooLarge? ==>
        && (reply.Taken? <==> exists i :: 0 <= i < |calls| && Judge(calls[i]).Accepted?)
        && (reply.Unavailable? <==> (forall i :: 0 <= i < |calls| ==> !Judge(calls[i]).Accepted?)
                                    && exists i :: 0 <= i < |calls| && Judge(calls[i]).Refused?)
    {
      if |calls| == 0 {
        return BadRequest;
      }
      if |calls| > (if maxBulkEvents <= 0 then 1000 else maxBulkEvents) {
        return TooLarge;
      }
      var resp := IngestEach(calls);
      FailureMeansNothingAdmitted(calls);
      if resp.accepted == 0 {
        var publishFailed := PublishFailedAmong(resp.errors);
        return if publishFailed then Unavailable else BadRequest;
      }
      return Taken(resp);
    }
  }
}
