/** The registry's domain errors: the four subclasses of `WebhookStorageError`.
    The base class has no instances of its own, so a closed datatype covers
    the whole hierarchy. */
module WebhookErrors {

  datatype WebhookStorageError =
    | EventNotFound(event: string)
    | UrlAlreadyExists(url: string, event: string)
    | UrlNotFound(url: string, event: string)
    | EventHasNoURLs(event: string)

  /** The text each exception passes to `Exception.__init__`. Every message
      opens with the kind's subject and the quoted identifier it names, and
      the URL kinds close with the quoted event. */
  function Message(e: WebhookStorageError): (r: string)
    ensures (e.EventNotFound? || e.EventHasNoURLs?) ==>
      |r| > 7 + |e.event| && r[..7] == "Event '" && r[7..7 + |e.event|] == e.event && r[7 + |e.event|] == '\''
    ensures (e.UrlAlreadyExists? || e.UrlNotFound?) ==>
      |r| > 5 + |e.url| + |e.event| + 2 && r[..5] == "URL '" && r[5..5 + |e.url|] == e.url && r[5 + |e.url|] == '\'' &&
      r[|r| - |e.event| - 3..] == "'" + e.event + "'."
  {
    match e
    case EventNotFound(event) => "Event '" + event + "' does not exist."
    case UrlAlreadyExists(url, event) => "URL '" + url + "' already exists for event '" + event + "'."
    case UrlNotFound(url, event) => "URL '" + url + "' does not exist for event '" + event + "'."
    case EventHasNoURLs(event) => "Event '" + event + "' has no registered URLs."
  }

  /** The message of an event-only error names its event unambiguously. */
  lemma EventMessageInjective(a: WebhookStorageError, b: WebhookStorageError)
    requires a.EventNotFound? || a.EventHasNoURLs?
    requires b.EventNotFound? || b.EventHasNoURLs?
    requires Message(a) == Message(b)
    ensures a == b
  {
    var m := Message(a);
    assert |a.event| == |b.event|;
    assert a.event == m[7..7 + |a.event|] == b.event;
  }

  /** A URL error never reads like an event error. */
  lemma UrlAndEventMessagesDiffer(a: WebhookStorageError, b: WebhookStorageError)
    requires a.UrlAlreadyExists? || a.UrlNotFound?
    requires b.EventNotFound? || b.EventHasNoURLs?
    ensures Message(a) != Message(b)
  {
    assert Message(a)[0] == 'U';
    assert Message(b)[0] == 'E';
  }
}
