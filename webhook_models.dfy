/** The request and report models: the event-name validator of
    `WebhookRequest` and the delivery report `PingedWebhooks` / `PingResponse`. */
module WebhookModels {
  import opened Wrappers
  import opened Json

  // ---------------------------------------------------------------------------
  // WebhookRequest.validate_event, over ASCII text

  predicate IsUpper(c: char) { 'A' <= c <= 'Z' }
  predicate IsLower(c: char) { 'a' <= c <= 'z' }
  predicate IsDigit(c: char) { '0' <= c <= '9' }

  /** A character that may open an identifier: a letter or an underscore. */
  predicate IsIdentifierStart(c: char) { IsUpper(c) || IsLower(c) || c == '_' }

  /** A character that may continue an identifier: also a digit. */
  predicate IsIdentifierPart(c: char) { IsIdentifierStart(c) || IsDigit(c) }

  /** `str.isidentifier()` restricted to ASCII. */
  predicate IsIdentifier(s: string) {
    |s| > 0 && IsIdentifierStart(s[0]) && forall i :: 1 <= i < |s| ==> IsIdentifierPart(s[i])
  }

  function LowerChar(c: char): (r: char)
    ensures !IsUpper(r)
    ensures IsUpper(c) ==> IsLower(r) && r as int - c as int == 32
    ensures !IsUpper(c) ==> r == c
  {
    if IsUpper(c) then (c as int + 32) as char else c
  }

  /** `str.lower()` restricted to ASCII. */
  function Lower(s: string): (r: string)
    ensures |r| == |s|
    ensures forall i :: 0 <= i < |r| ==> !IsUpper(r[i])
    ensures forall i :: 0 <= i < |s| && IsUpper(s[i]) ==> IsLower(r[i]) && r[i] as int == s[i] as int + 32
    ensures forall i :: 0 <= i < |s| && !IsUpper(s[i]) ==> r[i] == s[i]
  {
    seq(|s|, i requires 0 <= i < |s| => LowerChar(s[i]))
  }

  const InvalidEventMessage: string :=
    "Event name must be a valid identifier (alphanumeric and underscores only)."

  /** Lower-cases the event name and accepts it only if the result is an
      identifier; otherwise the `ValueError` text. */
  function ValidateEvent(value: string): (r: Result<string, string>)
    ensures r.Success? ==> r.value == Lower(value)
    ensures r.Success? ==> forall i :: 0 <= i < |r.value| ==> !IsUpper(r.value[i])
    ensures r.Failure? ==> r.error == InvalidEventMessage
  {
    var lowered := Lower(value);
    if !IsIdentifier(lowered) then Failure(InvalidEventMessage) else Success(lowered)
  }

  /** Lower-casing neither makes nor breaks an identifier, so the validator
      rejects exactly the names that are not identifiers to begin with. */
  lemma ValidateEventRejectsExactlyNonIdentifiers(value: string)
    ensures ValidateEvent(value).Failure? <==> !IsIdentifier(value)
    ensures ValidateEvent(value).Failure? <==> !IsIdentifier(Lower(value))
  {
    var lowered := Lower(value);
    assert forall i :: 0 <= i < |value| ==>
      (IsIdentifierStart(lowered[i]) <==> IsIdentifierStart(value[i])) &&
      (IsIdentifierPart(lowered[i]) <==> IsIdentifierPart(value[i]));
  }

  lemma LowerIdempotent(s: string)
    ensures Lower(Lower(s)) == Lower(s)
  {
  }

  /** Validating an accepted name again gives the same name back. */
  lemma ValidateEventIdempotent(value: string)
    requires ValidateEvent(value).Success?
    ensures ValidateEvent(ValidateEvent(value).value) == ValidateEvent(value)
  {
    LowerIdempotent(value);
  }

  /** Names the validator turns away, and one it accepts after lower-casing. */
  lemma ValidateEventExamples()
    ensures ValidateEvent("").Failure?
    ensures ValidateEvent("1order").Failure?
    ensures ValidateEvent("order-placed").Failure?
    ensures ValidateEvent("order placed").Failure?
    ensures ValidateEvent("Order_Placed") == Success("order_placed")
  {
    assert !IsIdentifierPart('-') && !IsIdentifierPart(' ');
    assert Lower("order-placed")[5] == '-';
    assert Lower("order placed")[5] == ' ';
    assert Lower("Order_Placed") == "order_placed";
  }

  // ---------------------------------------------------------------------------
  // PingedWebhooks and PingResponse

  /** One entry of `successful_webhooks`: the parsed response body (`{}` when it
      is not JSON) and the status code. */
  datatype SuccessEntry = SuccessEntry(event: string, url: string, payload: Json, statusCode: int)

  /** One entry of `failed_webhooks`: the error text, and the status code, or
      None when no response was received. */
  datatype FailureEntry = FailureEntry(event: string, url: string, error: string, statusCode: Option<int>)

  /** The four report fields as a value. */
  datatype Report = Report(
    successfulWebhooksCount: int,
    successfulWebhooks: seq<SuccessEntry>,
    failedWebhooksCount: int,
    failedWebhooks: seq<FailureEntry>)
  {
    /** Each count equals the length of its list. */
    predicate Consistent() {
      successfulWebhooksCount == |successfulWebhooks| && failedWebhooksCount == |failedWebhooks|
    }
  }

  /** The report as `send` fills it in, field by field. */
  class PingedWebhooks {
    var successfulWebhooksCount: int
    var successfulWebhooks: seq<SuccessEntry>
    var failedWebhooksCount: int
    var failedWebhooks: seq<FailureEntry>

    function Snapshot(): Report
      reads this
    {
      Report(successfulWebhooksCount, successfulWebhooks, failedWebhooksCount, failedWebhooks)
    }

    /** The field defaults: both counts 0, both lists empty. */
    constructor ()
      ensures Snapshot() == Report(0, [], 0, [])
      ensures Snapshot().Consistent()
    {
      successfulWebhooksCount := 0;
      successfulWebhooks := [];
      failedWebhooksCount := 0;
      failedWebhooks := [];
    }

    /** `successful_webhooks_count += 1` together with the append of the entry. */
    method AddSuccessful(entry: SuccessEntry)
      modifies this
      ensures Snapshot() == old(Snapshot()).(
        successfulWebhooksCount := old(successfulWebhooksCount) + 1,
        successfulWebhooks := old(successfulWebhooks) + [entry])
      ensures old(Snapshot()).Consistent() ==> Snapshot().Consistent()
    {
      successfulWebhooksCount := successfulWebhooksCount + 1;
      successfulWebhooks := successfulWebhooks + [entry];
    }

    /** `failed_webhooks_count += 1` together with the append of the entry. */
    method AddFailed(entry: FailureEntry)
      modifies this
      ensures Snapshot() == old(Snapshot()).(
        failedWebhooksCount := old(failedWebhooksCount) + 1,
        failedWebhooks := old(failedWebhooks) + [entry])
      ensures old(Snapshot()).Consistent() ==> Snapshot().Consistent()
    {
      failedWebhooksCount := failedWebhooksCount + 1;
      failedWebhooks := failedWebhooks + [entry];
    }
  }

  /** `PingResponse`: a `PingedWebhooks` with a `message`. */
  datatype PingResponse = PingResponse(
    message: string,
    successfulWebhooksCount: int,
    successfulWebhooks: seq<SuccessEntry>,
    failedWebhooksCount: int,
    failedWebhooks: seq<FailureEntry>)
  {
    /** The inherited part. */
    function Inherited(): Report {
      Report(successfulWebhooksCount, successfulWebhooks, failedWebhooksCount, failedWebhooks)
    }
  }

  /** Wraps a report with a message; every inherited field is carried over
      unchanged, so a consistent report stays consistent. */
  function ToPingResponse(report: Report, message: string): (r: PingResponse)
    ensures r.message == message && r.Inherited() == report
    ensures r.Inherited().Consistent() <==> report.Consistent()
  {
    PingResponse(message, report.successfulWebhooksCount, report.successfulWebhooks,
                 report.failedWebhooksCount, report.failedWebhooks)
  }
}
