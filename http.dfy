/** The outbound HTTP client (`requests.post`), abstracted as a network that
    answers each POST through an oracle and keeps a log of every exchange. */
module Http {
  import opened Wrappers
  import opened Json

  /** One POST: the target URL and its JSON body. */
  datatype Request = Request(url: string, body: Json)

  /** What a POST comes back with: a received response (status code, reason
      phrase, and the body parsed as JSON, or None when the body is not JSON),
      or a transport failure (refused connection, DNS failure, timeout, ...)
      with the text of the raised exception. */
  datatype PostResult =
    | Response(status: int, reason: string, body: Option<Json>)
    | TransportError(message: string)

  /** `Response.ok` of the requests library: false exactly for the client and
      server error classes 400-599 that `raise_for_status` raises on. */
  predicate ResponseOk(status: int) {
    !(400 <= status < 600)
  }

  datatype Exchange = Exchange(request: Request, outcome: PostResult)

  function RequestsOf(log: seq<Exchange>): seq<Request> {
    seq(|log|, k requires 0 <= k < |log| => log[k].request)
  }

  function OutcomesOf(log: seq<Exchange>): seq<PostResult> {
    seq(|log|, k requires 0 <= k < |log| => log[k].outcome)
  }

  /** The remote side. `respond(req, n)` is the answer the n-th POST made
      through this network receives, so answers may depend on the request and
      on time; `exchanges` records every POST in the order it was made. */
  class Network {
    const respond: (Request, nat) -> PostResult
    var exchanges: seq<Exchange>

    ghost predicate Valid()
      reads this
    {
      forall k :: 0 <= k < |exchanges| ==>
        exchanges[k].outcome == respond(exchanges[k].request, k)
    }

    constructor (respond: (Request, nat) -> PostResult)
      ensures Valid()
      ensures this.respond == respond && exchanges == []
    {
      this.respond := respond;
      exchanges := [];
    }

    /** `requests.post(url, json=body)`: one exchange is appended to the log. */
    method Post(url: string, body: Json) returns (o: PostResult)
      requires Valid()
      modifies this
      ensures Valid()
      ensures o == respond(Request(url, body), |old(exchanges)|)
      ensures exchanges == old(exchanges) + [Exchange(Request(url, body), o)]
    {
      o := respond(Request(url, body), |exchanges|);
      exchanges := exchanges + [Exchange(Request(url, body), o)];
    }
  }
}
