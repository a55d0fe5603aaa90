/** The stateful part of `webhook_storage.py`: the storage file and the
    operations that rewrite it (`update`, `remove`), and the two delivery
    routines that POST to registered URLs (`send`, `trigger_webhooks`). */
module WebhookStorage {
  import opened Wrappers
  import opened Json
  import opened Http
  import opened WebhookErrors
  import opened WebhookModels
  import opened WebhookRegistry

  // ---------------------------------------------------------------------------
  // Specification of a delivery cycle

  /** One (event, url) pair that a delivery cycle POSTs to. */
  datatype Attempt = Attempt(event: string, url: string)

  function EventAttempts(event: string, urls: seq<string>): seq<Attempt> {
    seq(|urls|, k requires 0 <= k < |urls| => Attempt(event, urls[k]))
  }

  lemma EventAttemptsSnoc(event: string, urls: seq<string>, j: nat)
    requires j < |urls|
    ensures EventAttempts(event, urls[..j + 1]) == EventAttempts(event, urls[..j]) + [Attempt(event, urls[j])]
  {
  }

  /** Every (event, url) pair of the mapping in dict iteration order: events in
      order, and within an event its URLs in order. */
  function Attempts(data: Registry): seq<Attempt>
  {
    if data == [] then []
    else Attempts(data[..|data| - 1]) + EventAttempts(data[|data| - 1].event, data[|data| - 1].urls)
  }

  /** Dict iteration reaches one more event. */
  lemma AttemptsPrefix(data: Registry, i: nat)
    requires i < |data|
    ensures Attempts(data[..i + 1]) == Attempts(data[..i]) + EventAttempts(data[i].event, data[i].urls)
  {
    assert data[..i + 1][..i] == data[..i];
  }

  /** The number of URLs registered across all events. */
  function TotalUrls(data: Registry): nat
  {
    if data == [] then 0 else |data[0].urls| + TotalUrls(data[1..])
  }

  lemma {:induction false} TotalUrlsSnoc(data: Registry, s: Subscription)
    ensures TotalUrls(data + [s]) == TotalUrls(data) + |s.urls|
  {
    if data != [] {
      assert (data + [s])[1..] == data[1..] + [s];
      TotalUrlsSnoc(data[1..], s);
    }
  }

  /** One attempt per registered URL. */
  lemma {:induction false} AttemptsCount(data: Registry)
    ensures |Attempts(data)| == TotalUrls(data)
  {
    if data != [] {
      var init := data[..|data| - 1];
      AttemptsCount(init);
      assert data == init + [data[|data| - 1]];
      TotalUrlsSnoc(init, data[|data| - 1]);
    }
  }

  /** `{"event": event, "data": payload}`, the body of every POST. */
  function Envelope(event: string, payload: Json): Json {
    JObject([("event", JString(event)), ("data", payload)])
  }

  /** The POSTs a cycle makes, one per attempt, in order. */
  function AttemptRequests(attempts: seq<Attempt>, payload: Json): seq<Request> {
    seq(|attempts|, k requires 0 <= k < |attempts| =>
      Request(attempts[k].url, Envelope(attempts[k].event, payload)))
  }

  /** An attempt's report entry. */
  datatype Classified = Succeeded(success: SuccessEntry) | Failed(failure: FailureEntry)

  /** How `send` files one attempt: an ok response is a success carrying the
      parsed body (`{}` when the body is not JSON); any other response is a
      failure carrying the reason phrase and the status; a transport error is
      a failure carrying the exception text and no status. */
  function Classify(a: Attempt, o: PostResult): (c: Classified)
    ensures c.Succeeded? <==> o.Response? && ResponseOk(o.status)
    ensures c.Succeeded? ==> c.success == SuccessEntry(a.event, a.url, o.body.GetOr(EmptyObject), o.status)
    ensures c.Failed? ==> c.failure.event == a.event && c.failure.url == a.url
    ensures c.Failed? ==> (c.failure.statusCode.None? <==> o.TransportError?)
    ensures c.Failed? && o.Response? ==> c.failure.error == "HTTP error: " + o.reason && c.failure.statusCode == Some(o.status)
    ensures c.Failed? && o.TransportError? ==> c.failure.error == o.message
  {
    match o
    case Response(status, reason, body) =>
      if ResponseOk(status) then Succeeded(SuccessEntry(a.event, a.url, body.GetOr(EmptyObject), status))
      else Failed(FailureEntry(a.event, a.url, "HTTP error: " + reason, Some(status)))
    case TransportError(message) =>
      Failed(FailureEntry(a.event, a.url, message, None))
  }

  /** The report after filing one more entry: one counter goes up by one and
      the entry is appended to its list. */
  function Record(r: Report, c: Classified): Report
  {
    match c
    case Succeeded(e) =>
      r.(successfulWebhooksCount := r.successfulWebhooksCount + 1, successfulWebhooks := r.successfulWebhooks + [e])
    case Failed(e) =>
      r.(failedWebhooksCount := r.failedWebhooksCount + 1, failedWebhooks := r.failedWebhooks + [e])
  }

  /** The report of a cycle whose attempts met the given outcomes, filed in
      order starting from the defaults of `PingedWebhooks`. */
  function Tally(attempts: seq<Attempt>, outcomes: seq<PostResult>): Report
    requires |attempts| == |outcomes|
  {
    if attempts == [] then Report(0, [], 0, [])
    else
      var n := |attempts| - 1;
      Record(Tally(attempts[..n], outcomes[..n]), Classify(attempts[n], outcomes[n]))
  }

  lemma TallySnoc(attempts: seq<Attempt>, outcomes: seq<PostResult>, a: Attempt, o: PostResult)
    requires |attempts| == |outcomes|
    ensures Tally(attempts + [a], outcomes + [o]) == Record(Tally(attempts, outcomes), Classify(a, o))
  {
    assert (attempts + [a])[..|attempts|] == attempts;
    assert (outcomes + [o])[..|outcomes|] == outcomes;
  }

  /** Each count equals its list's length, and between them the two counts
      cover every attempt exactly once. */
  lemma {:induction false} TallyConsistent(attempts: seq<Attempt>, outcomes: seq<PostResult>)
    requires |attempts| == |outcomes|
    ensures Tally(attempts, outcomes).Consistent()
    ensures Tally(attempts, outcomes).successfulWebhooksCount + Tally(attempts, outcomes).failedWebhooksCount == |attempts|
  {
    if attempts != [] {
      var n := |attempts| - 1;
      TallyConsistent(attempts[..n], outcomes[..n]);
    }
  }

  /** The entries of a cycle, one per attempt, in attempt order. */
  function Entries(attempts: seq<Attempt>, outcomes: seq<PostResult>): seq<Classified>
    requires |attempts| == |outcomes|
  {
    seq(|attempts|, k requires 0 <= k < |attempts| => Classify(attempts[k], outcomes[k]))
  }

  /** The successful entries of a list, in order. */
  function Successes(cs: seq<Classified>): seq<SuccessEntry>
  {
    if cs == [] then []
    else (if cs[0].Succeeded? then [cs[0].success] else []) + Successes(cs[1..])
  }

  /** The failed entries of a list, in order. */
  function Failures(cs: seq<Classified>): seq<FailureEntry>
  {
    if cs == [] then []
    else (if cs[0].Failed? then [cs[0].failure] else []) + Failures(cs[1..])
  }

  lemma {:induction false} FilterSnoc(cs: seq<Classified>, c: Classified)
    ensures Successes(cs + [c]) == Successes(cs) + (if c.Succeeded? then [c.success] else [])
    ensures Failures(cs + [c]) == Failures(cs) + (if c.Failed? then [c.failure] else [])
  {
    if cs != [] {
      assert (cs + [c])[1..] == cs[1..] + [c];
      FilterSnoc(cs[1..], c);
    }
  }

  /** The report's lists are exactly the successful and the failed entries of
      the cycle, each in the order the attempts were made. */
  lemma {:induction false} TallyListsEntriesInOrder(attempts: seq<Attempt>, outcomes: seq<PostResult>)
    requires |attempts| == |outcomes|
    ensures Tally(attempts, outcomes).successfulWebhooks == Successes(Entries(attempts, outcomes))
    ensures Tally(attempts, outcomes).failedWebhooks == Failures(Entries(attempts, outcomes))
  {
    if attempts != [] {
      var n := |attempts| - 1;
      TallyListsEntriesInOrder(attempts[..n], outcomes[..n]);
      assert Entries(attempts, outcomes) == Entries(attempts[..n], outcomes[..n]) + [Classify(attempts[n], outcomes[n])];
      FilterSnoc(Entries(attempts[..n], outcomes[..n]), Classify(attempts[n], outcomes[n]));
    }
  }

  /** What a whole `send` over `data` reports, whatever the endpoints answer:
      consistent counts whose sum is the number of registered URLs. */
  lemma SendTotals(data: Registry, outcomes: seq<PostResult>)
    requires |outcomes| == |Attempts(data)|
    ensures Tally(Attempts(data), outcomes).Consistent()
    ensures Tally(Attempts(data), outcomes).successfulWebhooksCount
          + Tally(Attempts(data), outcomes).failedWebhooksCount == TotalUrls(data)
  {
    TallyConsistent(Attempts(data), outcomes);
    AttemptsCount(data);
  }

  /** The registry of the one-URL delivery scenarios. */
  const OrderPlaced: Registry := [Subscription("order_placed", ["http://a/x"])]

  lemma OrderPlacedAttempts()
    ensures Attempts(OrderPlaced) == [Attempt("order_placed", "http://a/x")]
  {
    assert OrderPlaced[..0] == [];
  }

  /** An endpoint answering 200 with a JSON body: one success carrying it. */
  lemma SendScenarioOk(body: Json)
    ensures Tally(Attempts(OrderPlaced), [Response(200, "OK", Some(body))])
         == Report(1, [SuccessEntry("order_placed", "http://a/x", body, 200)], 0, [])
  {
    OrderPlacedAttempts();
  }

  /** An endpoint answering 500: one failure with the reason phrase and the status. */
  lemma SendScenarioServerError(reason: string)
    ensures Tally(Attempts(OrderPlaced), [Response(500, reason, None)])
         == Report(0, [], 1, [FailureEntry("order_placed", "http://a/x", "HTTP error: " + reason, Some(500))])
  {
    OrderPlacedAttempts();
  }

  /** An unreachable endpoint: one failure with the exception text and no status. */
  lemma SendScenarioUnreachable(message: string)
    ensures Tally(Attempts(OrderPlaced), [TransportError(message)])
         == Report(0, [], 1, [FailureEntry("order_placed", "http://a/x", message, None)])
  {
    OrderPlacedAttempts();
  }

  /** A redirect status is not an error status for `Response.ok`, so it is
      filed as a success, with `{}` for a body that is not JSON. */
  lemma SendScenarioRedirect()
    ensures Tally(Attempts(OrderPlaced), [Response(304, "Not Modified", None)])
         == Report(1, [SuccessEntry("order_placed", "http://a/x", EmptyObject, 304)], 0, [])
  {
    OrderPlacedAttempts();
  }

  // ---------------------------------------------------------------------------
  // send

  /** `send(data, payload)`: POSTs the envelope to every (event, url) pair in
      iteration order, exactly once each, and files each outcome into a fresh
      `PingedWebhooks`. No outcome stops the loop. */
  method Send(data: Registry, payload: Json, net: Network) returns (report: PingedWebhooks)
    requires net.Valid()
    modifies net
    ensures net.Valid() && fresh(report)
    ensures |net.exchanges| == |old(net.exchanges)| + |Attempts(data)|
    ensures net.exchanges[..|old(net.exchanges)|] == old(net.exchanges)
    ensures RequestsOf(net.exchanges[|old(net.exchanges)|..]) == AttemptRequests(Attempts(data), payload)
    ensures report.Snapshot() == Tally(Attempts(data), OutcomesOf(net.exchanges[|old(net.exchanges)|..]))
  {
    report := new PingedWebhooks();
    ghost var log: seq<Exchange> := [];
    var i := 0;
    while i < |data|
      invariant 0 <= i <= |data|
      invariant net.Valid()
      invariant net.exchanges == old(net.exchanges) + log
      invariant |log| == |Attempts(data[..i])|
      invariant RequestsOf(log) == AttemptRequests(Attempts(data[..i]), payload)
      invariant report.Snapshot() == Tally(Attempts(data[..i]), OutcomesOf(log))
    {
      var event, urls := data[i].event, data[i].urls;
      var payloadWithEvent := Envelope(event, payload);
      ghost var before := Attempts(data[..i]);
      ghost var done := before;
      var j := 0;
      assert EventAttempts(event, urls[..j]) == [];
      assert done == before + EventAttempts(event, urls[..j]);
      while j < |urls|
        invariant 0 <= j <= |urls|
        invariant done == before + EventAttempts(event, urls[..j])
        invariant net.Valid()
        invariant net.exchanges == old(net.exchanges) + log
        invariant |log| == |done|
        invariant RequestsOf(log) == AttemptRequests(done, payload)
        invariant report.Snapshot() == Tally(done, OutcomesOf(log))
      {
        var url := urls[j];
        var response := PingOne(report, net, event, url, payloadWithEvent);
        ghost var a, x := Attempt(event, url), Exchange(Request(url, payloadWithEvent), response);
        SendStep(done, log, x, payload, a);
        EventAttemptsSnoc(event, urls, j);
        AppendAssoc(before, EventAttempts(event, urls[..j]), [a]);
        AppendAssoc(old(net.exchanges), log, [x]);
        done, log := done + [a], log + [x];
        j := j + 1;
      }
      assert urls[..j] == urls;
      AttemptsPrefix(data, i);
      i := i + 1;
    }
    assert data[..i] == data;
    assert net.exchanges[|old(net.exchanges)|..] == log;
  }

  lemma AppendAssoc<T>(a: seq<T>, b: seq<T>, c: seq<T>)
    ensures (a + b) + c == a + (b + c)
  {
  }

  /** The body of `send`'s inner loop: one POST, and its outcome filed into
      the report. */
  method PingOne(report: PingedWebhooks, net: Network, event: string, url: string, payloadWithEvent: Json)
    returns (response: PostResult)
    requires net.Valid()
    modifies report, net
    ensures net.Valid()
    ensures net.exchanges == old(net.exchanges) + [Exchange(Request(url, payloadWithEvent), response)]
    ensures report.Snapshot() == Record(old(report.Snapshot()), Classify(Attempt(event, url), response))
  {
    response := net.Post(url, payloadWithEvent);
    match response {
      case Response(status, reason, body) =>
        if ResponseOk(status) {
          var receivedPayload := body.GetOr(EmptyObject);
          report.AddSuccessful(SuccessEntry(event, url, receivedPayload, status));
        } else {
          report.AddFailed(FailureEntry(event, url, "HTTP error: " + reason, Some(status)));
        }
      case TransportError(message) =>
        report.AddFailed(FailureEntry(event, url, message, None));
    }
  }

  /** One iteration of `send`'s inner loop: the attempt's request joins the
      log and its outcome is filed into the report. */
  lemma SendStep(done: seq<Attempt>, log: seq<Exchange>, x: Exchange, payload: Json, a: Attempt)
    requires |done| == |log|
    requires x.request == Request(a.url, Envelope(a.event, payload))
    ensures RequestsOf(log + [x]) == RequestsOf(log) + [x.request]
    ensures AttemptRequests(done + [a], payload) == AttemptRequests(done, payload) + [x.request]
    ensures Tally(done + [a], OutcomesOf(log + [x])) == Record(Tally(done, OutcomesOf(log)), Classify(a, x.outcome))
  {
    assert OutcomesOf(log + [x]) == OutcomesOf(log) + [x.outcome];
    TallySnoc(done, OutcomesOf(log), a, x.outcome);
  }

  // ---------------------------------------------------------------------------
  // trigger_webhooks

  /** The URLs that `trigger_webhooks(event, ...)` POSTs to: those of every
      subscription named `event`, in iteration order. */
  function UrlsFor(data: Registry, event: string): seq<string>
  {
    if data == [] then []
    else
      var last := data[|data| - 1];
      UrlsFor(data[..|data| - 1], event) + (if last.event == event then last.urls else [])
  }

  lemma {:induction false} UrlsForAbsent(data: Registry, event: string)
    requires !HasEvent(data, event)
    ensures UrlsFor(data, event) == []
  {
    if data != [] {
      var init := data[..|data| - 1];
      assert !HasEvent(init, event) by {
        forall k | 0 <= k < |init| ensures init[k].event != event {
          assert init[k] == data[k];
        }
      }
      UrlsForAbsent(init, event);
    }
  }

  /** With distinct event names the loop of `trigger_webhooks` reaches exactly
      the list stored under the event, and nothing when it is not a key. */
  lemma {:induction false} UrlsForIsStoredList(data: Registry, event: string)
    requires DistinctEvents(data)
    ensures UrlsFor(data, event) == UrlsOf(data, event).GetOr([])
  {
    if data != [] {
      var n := |data| - 1;
      var init := data[..n];
      assert Events(init) == Events(data)[..n];
      if data[n].event == event {
        assert !HasEvent(init, event) by {
          forall k | 0 <= k < n ensures init[k].event != event {
            assert Events(data)[k] != Events(data)[n];
          }
        }
        UrlsForAbsent(init, event);
        UrlsOfUnique(data, n);
      } else {
        UrlsForIsStoredList(init, event);
        if HasEvent(init, event) {
          var k :| 0 <= k < n && init[k].event == event;
          UrlsOfUnique(init, k);
          UrlsOfUnique(data, k);
        } else {
          assert !HasEvent(data, event) by {
            forall k | 0 <= k < |data| ensures data[k].event != event {
              if k < n { assert init[k] == data[k]; }
            }
          }
        }
      }
    }
  }

  /** POSTs of one envelope to the given URLs, in order. */
  function PostsTo(urls: seq<string>, body: Json): seq<Request> {
    seq(|urls|, k requires 0 <= k < |urls| => Request(urls[k], body))
  }

  lemma PostsToSnoc(urls: seq<string>, body: Json, url: string)
    ensures PostsTo(urls + [url], body) == PostsTo(urls, body) + [Request(url, body)]
  {
  }

  // ---------------------------------------------------------------------------
  // The storage file

  /** How one call of `_write` goes, as the file system decides it. The file
      is opened with mode "w", which empties it before `json.dump` runs, so
      a failure at the open leaves the old contents while a failure during
      the dump or the close leaves an empty or cut-short file that no longer
      parses. `_write` catches and only logs either failure. */
  datatype WriteOutcome = Written | OpenFailed | DumpFailed

  /** The contents of the storage file after one `_write(data)`. */
  function AfterWrite(before: Option<Registry>, data: Registry, w: WriteOutcome): Option<Registry> {
    match w
    case Written => Some(data)
    case OpenFailed => before
    case DumpFailed => None
  }

  /** A completed write is read back as written. */
  lemma WrittenReadsBack(before: Option<Registry>, data: Registry)
    ensures Read(AfterWrite(before, data, Written), None) == Success(data)
  {
  }

  /** A write that fails after the truncating open leaves the registry
      unreadable: every later operation that reads it fails, while the
      mutation that wrote it still reported success. */
  lemma DumpFailureLosesRegistry(before: Option<Registry>, data: Registry, event: Option<string>)
    ensures Read(AfterWrite(before, data, DumpFailed), event) == Failure(StorageUnavailable)
  {
  }

  /** The JSON storage file, holding the registry as parsed (None when the
      file is missing or its contents are not valid JSON). */
  class WebhookStore {
    var file: Option<Registry>

    /** A JSON object has distinct keys. */
    ghost predicate Valid()
      reads this
    {
      file.Some? ==> DistinctEvents(file.value)
    }

    constructor (file: Option<Registry>)
      requires file.Some? ==> DistinctEvents(file.value)
      ensures Valid() && this.file == file
    {
      this.file := file;
    }

    /** `_write(data)`: replaces the whole file, keeps it when the open fails,
      or leaves it unparsable when the dump fails; never reports an error. */
    method Write(data: Registry, w: WriteOutcome)
      requires Valid() && DistinctEvents(data)
      modifies this
      ensures Valid()
      ensures file == AfterWrite(old(file), data, w)
    {
      match w
      case Written => file := Some(data);
      case OpenFailed =>
      case DumpFailed => file := None;
    }

    /** `update(event, url)`: read everything, check, append, rewrite. Errors
      leave the file untouched; success is reported however the write goes. */
    method Update(event: string, url: string, w: WriteOutcome) returns (res: Outcome<StoreError>)
      requires Valid()
      modifies this
      ensures Valid()
      ensures old(file).None? ==> res == Fail(StorageUnavailable) && file == old(file)
      ensures old(file).Some? && AddUrl(old(file).value, event, url).Failure? ==>
        res == Fail(Webhook(AddUrl(old(file).value, event, url).error)) && file == old(file)
      ensures old(file).Some? && AddUrl(old(file).value, event, url).Success? ==>
        res == Pass && file == AfterWrite(old(file), AddUrl(old(file).value, event, url).value, w)
    {
      var read := Read(file, None);
      if read.Failure? {
        return Fail(read.error);
      }
      var data := read.value;
      var index := Find(data, event);
      if index.None? {
        return Fail(Webhook(EventNotFound(event)));
      }
      var i := index.value;
      if url in data[i].urls {
        return Fail(Webhook(UrlAlreadyExists(url, event)));
      }
      data := data[i := Subscription(event, data[i].urls + [url])];
      assert Events(data) == Events(read.value);
      Write(data, w);
      res := Pass;
    }

    /** `remove(event, url)`: read everything, check, delete the first
      occurrence, rewrite. Errors leave the file untouched; success is
      reported however the write goes. */
    method Remove(event: string, url: string, w: WriteOutcome) returns (res: Outcome<StoreError>)
      requires Valid()
      modifies this
      ensures Valid()
      ensures old(file).None? ==> res == Fail(StorageUnavailable) && file == old(file)
      ensures old(file).Some? && RemoveUrl(old(file).value, event, url).Failure? ==>
        res == Fail(Webhook(RemoveUrl(old(file).value, event, url).error)) && file == old(file)
      ensures old(file).Some? && RemoveUrl(old(file).value, event, url).Success? ==>
        res == Pass && file == AfterWrite(old(file), RemoveUrl(old(file).value, event, url).value, w)
    {
      var read := Read(file, None);
      if read.Failure? {
        return Fail(read.error);
      }
      var data := read.value;
      var index := Find(data, event);
      if index.None? {
        return Fail(Webhook(EventNotFound(event)));
      }
      var i := index.value;
      if url !in data[i].urls {
        return Fail(Webhook(UrlNotFound(url, event)));
      }
      data := data[i := Subscription(event, RemoveFirst(data[i].urls, url))];
      assert Events(data) == Events(read.value);
      Write(data, w);
      res := Pass;
    }

    /** `trigger_webhooks(event, payload)`: POSTs the envelope to exactly the
      URLs stored under `event`, in order, whatever each POST comes back
      with; an unknown event posts nothing and is no error. Only an
      unreadable file stops it, before any POST. */
    method TriggerWebhooks(event: string, payload: Json, net: Network) returns (res: Outcome<StoreError>)
      requires Valid() && net.Valid()
      modifies net
      ensures net.Valid()
      ensures res == if file.None? then Fail(StorageUnavailable) else Pass
      ensures |net.exchanges| >= |old(net.exchanges)|
      ensures net.exchanges[..|old(net.exchanges)|] == old(net.exchanges)
      ensures RequestsOf(net.exchanges[|old(net.exchanges)|..]) ==
        if file.None? then [] else PostsTo(UrlsOf(file.value, event).GetOr([]), Envelope(event, payload))
    {
      var payloadWithEvent := Envelope(event, payload);
      var read := Read(file, None);
      if read.Failure? {
        assert net.exchanges[|old(net.exchanges)|..] == [];
        return Fail(read.error);
      }
      var data := read.value;
      ghost var log: seq<Exchange> := [];
      var i := 0;
      while i < |data|
        invariant 0 <= i <= |data|
        invariant net.Valid()
        invariant net.exchanges == old(net.exchanges) + log
        invariant RequestsOf(log) == PostsTo(UrlsFor(data[..i], event), payloadWithEvent)
      {
        var storedEvent, urls := data[i].event, data[i].urls;
        if storedEvent == event {
          ghost var before := UrlsFor(data[..i], event);
          var j := 0;
          while j < |urls|
            invariant 0 <= j <= |urls|
            invariant net.Valid()
            invariant net.exchanges == old(net.exchanges) + log
            invariant RequestsOf(log) == PostsTo(before + urls[..j], payloadWithEvent)
          {
            var _ := net.Post(urls[j], payloadWithEvent);
            ghost var x := net.exchanges[|net.exchanges| - 1];
            assert RequestsOf(log + [x]) == RequestsOf(log) + [x.request];
            AppendAssoc(before, urls[..j], [urls[j]]);
            assert urls[..j + 1] == urls[..j] + [urls[j]];
            PostsToSnoc(before + urls[..j], payloadWithEvent, urls[j]);
            AppendAssoc(old(net.exchanges), log, [x]);
            log := log + [x];
            j := j + 1;
          }
          assert urls[..j] == urls;
        }
        assert data[..i + 1][..i] == data[..i];
        i := i + 1;
      }
      assert data[..i] == data;
      assert net.exchanges[|old(net.exchanges)|..] == log;
      UrlsForIsStoredList(data, event);
      res := Pass;
    }
  }
}
