/** `McpMessageStatusFilter`: on `POST /mcp/message` the response handed
    down the chain turns every `setStatus(200)` into `setStatus(202)`;
    every other request goes down the chain untouched.  What the rest of
    the chain does to the response is an input: the sequence of status
    calls it makes. */
module StatusFilter {

  import opened Wrappers
  import opened Jvm

  const Ok: int32 := 200
  const Accepted: int32 := 202

  /** The parts of the request the filter can see: the method, the path
      `getRequestURI()` returns, which never includes the query string, and
      the query string itself (`getQueryString()`, `null` when absent). */
  datatype Request = Request(httpMethod: string, uri: string, query: Option<string>)

  /** A status-setting call the rest of the chain makes on the response:
      `setStatus`, which the wrapper overrides, or `sendError`, which it
      does not. */
  datatype StatusCall = SetStatus(sc: int32) | SendError(sc: int32)

  /** One pass through the filter: the request and the calls that reach the
      container's response, and how many times the chain was invoked. */
  datatype FilterRun = FilterRun(forwarded: Request, chainInvocations: nat, reached: seq<StatusCall>)

  /** The endpoint test: method and path compared exactly, case included;
      the query string plays no part. */
  predicate Matches(req: Request) {
    req.httpMethod == "POST" && req.uri == "/mcp/message"
  }

  /** The overriding `setStatus`: 200 becomes 202, any other code is kept. */
  function Rewrite(call: StatusCall): (r: StatusCall)
    ensures r.SetStatus? == call.SetStatus?
    ensures r.sc != Ok || !call.SetStatus?
    ensures call.sc != Ok || !call.SetStatus? ==> r == call
  {
    match call
    case SetStatus(sc) => SetStatus(if sc == Ok then Accepted else sc)
    case SendError(sc) => SendError(sc)
  }

  /** `doFilter`: the chain runs once with the same request, on the wrapped
      response when the endpoint matches and on the original otherwise. */
  function DoFilter(req: Request, calls: seq<StatusCall>): (run: FilterRun)
    ensures run.forwarded == req && run.chainInvocations == 1
    ensures |run.reached| == |calls|
    ensures !Matches(req) ==> run.reached == calls
    ensures Matches(req) ==> forall i :: 0 <= i < |calls| ==> run.reached[i] == Rewrite(calls[i])
  {
    var reached := if Matches(req) then seq(|calls|, i requires 0 <= i < |calls| => Rewrite(calls[i])) else calls;
    FilterRun(req, 1, reached)
  }

  /** On the endpoint no `setStatus(200)` gets through, each becomes 202,
      and every other call is passed on as made. */
  lemma EndpointAnswersAccepted(req: Request, calls: seq<StatusCall>)
    requires Matches(req)
    ensures SetStatus(Ok) !in DoFilter(req, calls).reached
    ensures forall i :: 0 <= i < |calls| && calls[i] == SetStatus(Ok) ==> DoFilter(req, calls).reached[i] == SetStatus(Accepted)
    ensures forall i :: 0 <= i < |calls| && calls[i] != SetStatus(Ok) ==> DoFilter(req, calls).reached[i] == calls[i]
  {
  }

  /** Filtering what the filter let through changes nothing more. */
  lemma RewriteIdempotent(req: Request, calls: seq<StatusCall>)
    ensures DoFilter(req, DoFilter(req, calls).reached).reached == DoFilter(req, calls).reached
  {
    var once := DoFilter(req, calls).reached;
    var twice := DoFilter(req, once).reached;
    if Matches(req) {
      forall i | 0 <= i < |once|
        ensures twice[i] == once[i]
      {
        assert once[i] == Rewrite(calls[i]);
      }
    }
  }

  /** The test is exact on the method and the path: a lower-case method, a
      trailing slash or another method all miss the endpoint, while the
      endpoint with a session query string still hits it. */
  lemma MatchIsExact()
    ensures Matches(Request("POST", "/mcp/message", None))
    ensures Matches(Request("POST", "/mcp/message", Some("sessionId=42")))
    ensures !Matches(Request("post", "/mcp/message", None))
    ensures !Matches(Request("POST", "/mcp/message/", None))
    ensures !Matches(Request("GET", "/mcp/message", None))
  {
  }

  /** Whether the filter rewrites never depends on the query string. */
  lemma QueryIsIgnored(req: Request, query: Option<string>, calls: seq<StatusCall>)
    ensures Matches(req.(query := query)) == Matches(req)
    ensures DoFilter(req.(query := query), calls).reached == DoFilter(req, calls).reached
  {
  }
}
