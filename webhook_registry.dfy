/** The in-memory side of the registry in `webhook_storage.py`: the mapping
    from event name to URL list that `read` returns and that `update` and
    `remove` change before rewriting it. A Python dict keeps insertion order,
    so the mapping is a sequence of subscriptions, one per event. */
module WebhookRegistry {
  import opened Wrappers
  import opened WebhookErrors

  datatype Subscription = Subscription(event: string, urls: seq<string>)

  type Registry = seq<Subscription>

  /** Why `read` (and so every operation built on it) can fail: one of the
      domain errors, or the storage file being missing or unparsable, which the
      source reports alike as an `IOError`. */
  datatype StoreError = Webhook(error: WebhookStorageError) | StorageUnavailable

  function Events(reg: Registry): seq<string> {
    seq(|reg|, i requires 0 <= i < |reg| => reg[i].event)
  }

  /** `event in data` */
  predicate HasEvent(reg: Registry, event: string) {
    exists i :: 0 <= i < |reg| && reg[i].event == event
  }

  predicate NoDuplicates<T(==)>(s: seq<T>) {
    forall i, j :: 0 <= i < j < |s| ==> s[i] != s[j]
  }

  /** Dict keys are distinct. */
  predicate DistinctEvents(reg: Registry) {
    NoDuplicates(Events(reg))
  }

  /** No URL is registered twice for one event. */
  predicate WellFormed(reg: Registry) {
    DistinctEvents(reg) && forall i :: 0 <= i < |reg| ==> NoDuplicates(reg[i].urls)
  }

  /** The position of `event`'s subscription: the first one with that name. */
  function Find(reg: Registry, event: string): (r: Option<nat>)
    ensures r.Some? ==> r.value < |reg| && reg[r.value].event == event
    ensures r.Some? ==> forall j :: 0 <= j < r.value ==> reg[j].event != event
    ensures r.None? <==> !HasEvent(reg, event)
  {
    if |reg| == 0 then None
    else if reg[0].event == event then Some(0)
    else
      match Find(reg[1..], event)
      case None => None
      case Some(k) => Some(k + 1)
  }

  /** Where the event names agree position by position, so do the lookups. */
  lemma {:induction false} FindDependsOnlyOnEvents(a: Registry, b: Registry, event: string)
    requires Events(a) == Events(b)
    ensures Find(a, event) == Find(b, event)
  {
    assert |a| == |Events(a)| == |Events(b)| == |b|;
    if |a| > 0 {
      assert a[0].event == Events(a)[0] == Events(b)[0] == b[0].event;
    }
    if |a| > 0 && a[0].event != event {
      assert Events(a[1..]) == Events(a)[1..];
      assert Events(b[1..]) == Events(b)[1..];
      FindDependsOnlyOnEvents(a[1..], b[1..], event);
    }
  }

  /** `data[event]`, or None when the event is not a key. */
  function UrlsOf(reg: Registry, event: string): (r: Option<seq<string>>)
    ensures r.None? <==> !HasEvent(reg, event)
  {
    match Find(reg, event)
    case None => None
    case Some(i) => Some(reg[i].urls)
  }

  /** With distinct events the subscription holding `event` is the only one. */
  lemma UrlsOfUnique(reg: Registry, i: nat)
    requires DistinctEvents(reg) && i < |reg|
    ensures UrlsOf(reg, reg[i].event) == Some(reg[i].urls)
  {
    var k := Find(reg, reg[i].event).value;
    assert Events(reg)[k] == Events(reg)[i];
  }

  // ---------------------------------------------------------------------------
  // read

  /** `read(event)` over the parsed contents of the storage file (None when it
      is missing or cannot be read or parsed). Without an event it returns everything;
      with one it returns that event alone, provided it exists and has URLs. */
  function Read(file: Option<Registry>, event: Option<string>): (r: Result<Registry, StoreError>)
    ensures file.None? ==> r == Failure(StorageUnavailable)
    ensures file.Some? && event.None? ==> r == Success(file.value)
    ensures file.Some? && event.Some? ==>
      (r == Failure(Webhook(EventNotFound(event.value))) <==> !HasEvent(file.value, event.value))
    ensures file.Some? && event.Some? ==>
      (r == Failure(Webhook(EventHasNoURLs(event.value))) <==> UrlsOf(file.value, event.value) == Some([]))
    ensures (file.Some? && event.Some? && UrlsOf(file.value, event.value).Some? &&
             UrlsOf(file.value, event.value).value != []) ==>
      r == Success([Subscription(event.value, UrlsOf(file.value, event.value).value)])
    ensures r.Success? && event.Some? ==>
      UrlsOf(file.value, event.value).Some? &&
      r.value == [Subscription(event.value, UrlsOf(file.value, event.value).value)] && r.value[0].urls != []
  {
    match file
    case None => Failure(StorageUnavailable)
    case Some(data) =>
      match event
      case None => Success(data)
      case Some(e) =>
        match UrlsOf(data, e)
        case None => Failure(Webhook(EventNotFound(e)))
        case Some(urls) =>
          if |urls| <= 0 then Failure(Webhook(EventHasNoURLs(e)))
          else Success([Subscription(e, urls)])
  }

  /** The subscriptions of `reg` whose event is `event`, in order. */
  function Restrict(reg: Registry, event: string): (r: Registry)
  {
    if reg == [] then []
    else (if reg[0].event == event then [reg[0]] else []) + Restrict(reg[1..], event)
  }

  lemma {:induction false} RestrictAbsent(reg: Registry, event: string)
    requires !HasEvent(reg, event)
    ensures Restrict(reg, event) == []
  {
    if reg != [] {
      assert !HasEvent(reg[1..], event) by {
        forall i | 0 <= i < |reg| - 1 ensures reg[1..][i].event != event {
          assert reg[1..][i] == reg[i + 1];
        }
      }
      RestrictAbsent(reg[1..], event);
    }
  }

  lemma {:induction false} RestrictDistinct(reg: Registry, event: string)
    requires DistinctEvents(reg) && HasEvent(reg, event)
    ensures Restrict(reg, event) == [reg[Find(reg, event).value]]
  {
    if reg[0].event == event {
      assert !HasEvent(reg[1..], event) by {
        forall i | 0 <= i < |reg| - 1 ensures reg[1..][i].event != event {
          assert Events(reg)[0] != Events(reg)[i + 1];
        }
      }
      RestrictAbsent(reg[1..], event);
    } else {
      assert Events(reg[1..]) == Events(reg)[1..];
      var k :| 0 <= k < |reg| && reg[k].event == event;
      assert reg[1..][k - 1].event == event;
      RestrictDistinct(reg[1..], event);
    }
  }

  /** Reading one event gives the whole mapping cut down to that event's
      entry: `{event: urls}` is what `read()` holds under `event`. */
  lemma ReadEventIsRestrictionOfReadAll(data: Registry, event: string)
    requires DistinctEvents(data)
    requires Read(Some(data), Some(event)).Success?
    ensures Read(Some(data), Some(event)).value == Restrict(Read(Some(data), None).value, event)
  {
    RestrictDistinct(data, event);
  }

  // ---------------------------------------------------------------------------
  // update: append a URL to an existing event

  /** The in-memory part of `update(event, url)`: fail if the event is not a
      key or already lists the URL, otherwise append the URL to its list. */
  function AddUrl(reg: Registry, event: string, url: string): (r: Result<Registry, WebhookStorageError>)
    ensures !HasEvent(reg, event) ==> r == Failure(EventNotFound(event))
    ensures HasEvent(reg, event) && url in UrlsOf(reg, event).value ==> r == Failure(UrlAlreadyExists(url, event))
    ensures r.Success? <==> HasEvent(reg, event) && url !in UrlsOf(reg, event).value
    ensures r.Success? ==> Events(r.value) == Events(reg)
    ensures r.Success? ==> UrlsOf(r.value, event) == Some(UrlsOf(reg, event).value + [url])
    ensures r.Success? ==> forall e :: e != event ==> UrlsOf(r.value, e) == UrlsOf(reg, e)
  {
    match Find(reg, event)
    case None => Failure(EventNotFound(event))
    case Some(i) =>
      if url in reg[i].urls then Failure(UrlAlreadyExists(url, event))
      else
        var updated := reg[i := Subscription(event, reg[i].urls + [url])];
        assert Events(updated) == Events(reg);
        FindAfterReplace(reg, i, Subscription(event, reg[i].urls + [url]));
        Success(updated)
  }

  /** Replacing one subscription by another under the same event name moves no
      lookup and touches no other event's list. */
  lemma FindAfterReplace(reg: Registry, i: nat, s: Subscription)
    requires i < |reg| && s.event == reg[i].event
    ensures Events(reg[i := s]) == Events(reg)
    ensures UrlsOf(reg[i := s], s.event) == (if Find(reg, s.event) == Some(i) then Some(s.urls) else UrlsOf(reg, s.event))
    ensures forall e :: e != s.event ==> UrlsOf(reg[i := s], e) == UrlsOf(reg, e)
  {
    var updated := reg[i := s];
    assert Events(updated) == Events(reg);
    forall e
      ensures Find(updated, e) == Find(reg, e)
    {
      FindDependsOnlyOnEvents(updated, reg, e);
    }
  }

  /** A successful `update` keeps the registry free of duplicate URLs. */
  lemma AddUrlKeepsWellFormed(reg: Registry, event: string, url: string)
    requires WellFormed(reg) && AddUrl(reg, event, url).Success?
    ensures WellFormed(AddUrl(reg, event, url).value)
  {
    var i := Find(reg, event).value;
    var r := AddUrl(reg, event, url).value;
    assert r == reg[i := Subscription(event, reg[i].urls + [url])];
    assert Events(r) == Events(reg);
    assert NoDuplicates(r[i].urls);
  }

  /** After a successful `update` the URL is listed exactly once under the
      event, and adding it a second time fails without a change. */
  lemma AddedUrlListedOnce(reg: Registry, event: string, url: string)
    requires AddUrl(reg, event, url).Success?
    ensures multiset(UrlsOf(AddUrl(reg, event, url).value, event).value)[url] == 1
    ensures AddUrl(AddUrl(reg, event, url).value, event, url) == Failure(UrlAlreadyExists(url, event))
  {
    var urls := UrlsOf(reg, event).value;
    assert multiset(urls + [url]) == multiset(urls) + multiset{url};
    assert url !in multiset(urls);
  }

  // ---------------------------------------------------------------------------
  // remove: delete a URL from an existing event

  /** Position of the first occurrence of `x` in `s`. */
  function FirstIndex<T(==)>(s: seq<T>, x: T): (k: nat)
    requires x in s
    ensures k < |s| && s[k] == x && x !in s[..k]
  {
    if s[0] == x then 0 else 1 + FirstIndex(s[1..], x)
  }

  /** `list.remove(x)`: deletes the first occurrence of `x`, keeping the rest
      in order. */
  function RemoveFirst<T(==)>(s: seq<T>, x: T): (r: seq<T>)
    requires x in s
    ensures r == s[..FirstIndex(s, x)] + s[FirstIndex(s, x) + 1..]
  {
    assert s == [s[0]] + s[1..];
    if s[0] == x then
      assert s[..0] + s[1..] == s[1..];
      s[1..]
    else
      var tail := s[1..];
      var k := FirstIndex(tail, x);
      var rest := RemoveFirst(tail, x);
      assert FirstIndex(s, x) == k + 1;
      assert s[..k + 1] == [s[0]] + tail[..k];
      assert s[k + 2..] == tail[k + 1..];
      [s[0]] + rest
  }

  /** Exactly one copy of `x` goes. */
  lemma RemoveFirstMultiset<T>(s: seq<T>, x: T)
    requires x in s
    ensures multiset(RemoveFirst(s, x)) == multiset(s) - multiset{x}
  {
    var k := FirstIndex(s, x);
    assert s == s[..k] + [x] + s[k + 1..];
    assert multiset(s) == multiset(s[..k]) + multiset{x} + multiset(s[k + 1..]);
  }

  /** Removing from a list without duplicates leaves one without duplicates,
      and without `x`. */
  lemma RemoveFirstFromDistinct<T>(s: seq<T>, x: T)
    requires x in s && NoDuplicates(s)
    ensures NoDuplicates(RemoveFirst(s, x)) && x !in RemoveFirst(s, x)
  {
    var k := FirstIndex(s, x);
    var r := RemoveFirst(s, x);
    forall i, j | 0 <= i < j < |r| ensures r[i] != r[j] {
      var si := if i < k then i else i + 1;
      var sj := if j < k then j else j + 1;
      assert r[i] == s[si] && r[j] == s[sj];
    }
    forall i | 0 <= i < |r| ensures r[i] != x {
      var si := if i < k then i else i + 1;
      assert r[i] == s[si];
    }
  }

  /** The in-memory part of `remove(event, url)`: fail if the event is not a
      key or does not list the URL, otherwise delete the URL's first
      occurrence from its list. */
  function RemoveUrl(reg: Registry, event: string, url: string): (r: Result<Registry, WebhookStorageError>)
    ensures !HasEvent(reg, event) ==> r == Failure(EventNotFound(event))
    ensures HasEvent(reg, event) && url !in UrlsOf(reg, event).value ==> r == Failure(UrlNotFound(url, event))
    ensures r.Success? <==> HasEvent(reg, event) && url in UrlsOf(reg, event).value
    ensures r.Success? ==> Events(r.value) == Events(reg)
    ensures r.Success? ==>
      var urls := UrlsOf(reg, event).value;
      var k := FirstIndex(urls, url);
      UrlsOf(r.value, event) == Some(urls[..k] + urls[k + 1..])
    ensures r.Success? ==> forall e :: e != event ==> UrlsOf(r.value, e) == UrlsOf(reg, e)
  {
    match Find(reg, event)
    case None => Failure(EventNotFound(event))
    case Some(i) =>
      if url !in reg[i].urls then Failure(UrlNotFound(url, event))
      else
        var updated := reg[i := Subscription(event, RemoveFirst(reg[i].urls, url))];
        FindAfterReplace(reg, i, Subscription(event, RemoveFirst(reg[i].urls, url)));
        Success(updated)
  }

  /** A successful `remove` keeps the registry free of duplicate URLs and
      leaves the URL no longer listed under the event. */
  lemma RemoveUrlKeepsWellFormed(reg: Registry, event: string, url: string)
    requires WellFormed(reg) && RemoveUrl(reg, event, url).Success?
    ensures WellFormed(RemoveUrl(reg, event, url).value)
    ensures url !in UrlsOf(RemoveUrl(reg, event, url).value, event).value
  {
    var i := Find(reg, event).value;
    var r := RemoveUrl(reg, event, url).value;
    assert r == reg[i := Subscription(event, RemoveFirst(reg[i].urls, url))];
    RemoveFirstFromDistinct(reg[i].urls, url);
    assert Events(r) == Events(reg);
    assert NoDuplicates(r[i].urls);
  }

  /** `remove` undoes `update`: the appended URL is the first occurrence. */
  lemma RemoveUndoesAdd(reg: Registry, event: string, url: string)
    requires AddUrl(reg, event, url).Success?
    ensures RemoveUrl(AddUrl(reg, event, url).value, event, url) == Success(reg)
  {
    var i := Find(reg, event).value;
    var urls := reg[i].urls;
    var extended := urls + [url];
    var added := reg[i := Subscription(event, extended)];
    assert AddUrl(reg, event, url) == Success(added);
    assert Events(added) == Events(reg);
    FindDependsOnlyOnEvents(added, reg, event);
    assert url in added[i].urls by { assert extended[|urls|] == url; }
    var k := FirstIndex(extended, url);
    assert k == |urls|;
    assert RemoveFirst(extended, url) == urls by {
      assert extended[..k] == urls;
      assert extended[k + 1..] == [];
    }
    assert RemoveUrl(added, event, url) == Success(added[i := Subscription(event, urls)]);
    assert added[i := Subscription(event, urls)] == reg;
  }
}
