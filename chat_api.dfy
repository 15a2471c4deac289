/** The chat route: it checks the request method, then the service gate,
    then forwards the messages to the upstream completion service and
    relays its answer or classifies its failure. The upstream call itself
    is not modelled; what it produced is an input. */
module ChatApi {
  import opened Protocol
  import ControlApi

  /** A value thrown in JavaScript: an `Error` with its `name` and its
      `code` property (`None` when absent or not a string), or anything
      else. */
  datatype Thrown = ErrorValue(name: string, code: Option<string>) | NonErrorValue

  /** What `response.json()` gave for the upstream body. */
  datatype JsonRead = Parsed(json: Json) | ParseFailed(error: Thrown)

  /** The upstream call: the fetch resolved with a status and a body, or it
      rejected. When the 8-second timer fires, the fetch rejects with an
      `Error` named `AbortError`. */
  datatype Upstream = Responded(status: int, read: JsonRead) | Rejected(error: Thrown)

  /** The body of the upstream request. */
  datatype UpstreamRequest = UpstreamRequest(model: string, messages: seq<ChatEntry>)

  /** The one response the route sends, and the upstream request it
      issued, if it issued one. */
  datatype Handled = Handled(response: Response, dispatched: Option<UpstreamRequest>)

  const Model := "gpt-4o-mini"

  /** The value that reaches the `catch` block, if any: a rejected fetch, an
      `Error` thrown for a non-ok status, or a body that fails to parse. */
  function ThrownBy(upstream: Upstream): (r: Option<Thrown>)
    ensures r.None? <==> upstream.Responded? && IsOk(upstream.status) && upstream.read.Parsed?
    ensures upstream.Responded? && !IsOk(upstream.status) ==> r == Some(ErrorValue("Error", None))
    ensures upstream.Responded? && IsOk(upstream.status) && upstream.read.ParseFailed? ==> r == Some(upstream.read.error)
    ensures upstream.Rejected? ==> r == Some(upstream.error)
  {
    match upstream
    case Rejected(e) => Some(e)
    case Responded(status, read) =>
      if !IsOk(status) then Some(ErrorValue("Error", None))
      else if read.ParseFailed? then Some(read.error)
      else None
  }

  /** The answer to a failed upstream call. */
  function Classify(e: Thrown): (r: Response)
    ensures r.status == 503 <==> e.ErrorValue? && e.name == "AbortError"
    ensures r.status == 504 <==> e.ErrorValue? && e.name != "AbortError" && e.code == Some("ETIMEDOUT")
    ensures r.status == 500 <==> !(e.ErrorValue? && (e.name == "AbortError" || e.code == Some("ETIMEDOUT")))
    ensures r.body.ErrorBody?
    ensures r.status == 503 ==> r.body == ErrorBody("服务已关闭或请求超时")
    ensures r.status == 504 ==> r.body == ErrorBody("AI请求超时，请稍后再试")
    ensures e.ErrorValue? && r.status == 500 ==> r.body == ErrorBody("Error calling OpenAI API")
    ensures e.NonErrorValue? ==> r == Response(500, ErrorBody("Unexpected error"))
  {
    match e
    case ErrorValue(name, code) =>
      if name == "AbortError" then Response(503, ErrorBody("服务已关闭或请求超时"))
      else if code == Some("ETIMEDOUT") then Response(504, ErrorBody("AI请求超时，请稍后再试"))
      else Response(500, ErrorBody("Error calling OpenAI API"))
    case NonErrorValue => Response(500, ErrorBody("Unexpected error"))
  }

  /** The route, for a request with method `verb` and body `messages`,
      when the gate flag reads `serviceOpen`. */
  function Handle(verb: string, serviceOpen: bool, messages: seq<ChatEntry>, upstream: Upstream): (h: Handled)
    ensures h.response.status in {200, 405, 503, 504, 500}
    ensures verb != "POST" ==> h == Handled(Response(405, ErrorBody("Method not allowed")), None)
    ensures verb == "POST" && !serviceOpen ==> h == Handled(Response(503, ErrorBody("服务已关闭")), None)
    ensures h.dispatched.Some? <==> verb == "POST" && serviceOpen
    ensures h.dispatched.Some? ==> h.dispatched.value == UpstreamRequest(Model, messages)
    ensures h.response.status == 200 <==> h.dispatched.Some? && ThrownBy(upstream).None?
    ensures h.response.status == 200 ==> h.response.body == Relayed(upstream.read.json)
    ensures h.dispatched.Some? && ThrownBy(upstream).Some? ==> h.response == Classify(ThrownBy(upstream).value)
  {
    if verb != "POST" then Handled(Response(405, ErrorBody("Method not allowed")), None)
    else if !serviceOpen then Handled(Response(503, ErrorBody("服务已关闭")), None)
    else
      var request := UpstreamRequest(Model, messages);
      match ThrownBy(upstream)
      case None => Handled(Response(200, Relayed(upstream.read.json)), Some(request))
      case Some(e) => Handled(Classify(e), Some(request))
  }

  /** The 8-second abort is answered as a closed service, not as a
      timeout; only an `ETIMEDOUT` error code gives 504. */
  lemma TimerAbortIsServiceUnavailable(messages: seq<ChatEntry>)
    ensures Handle("POST", true, messages, Rejected(ErrorValue("AbortError", None))).response
         == Response(503, ErrorBody("服务已关闭或请求超时"))
    ensures Handle("POST", true, messages, Rejected(ErrorValue("AbortError", Some("ETIMEDOUT")))).response.status == 503
  {
  }

  /** A non-ok upstream status becomes a generic failure, whatever it was. */
  lemma NotOkIsGenericFailure(messages: seq<ChatEntry>, status: int, read: JsonRead)
    requires !IsOk(status)
    ensures Handle("POST", true, messages, Responded(status, read)).response
         == Response(500, ErrorBody("Error calling OpenAI API"))
  {
  }

  /** Once `!close` has been accepted, and as long as no `!open` has been
      accepted after it, the chat route answers 503 and does not call the
      upstream service. */
  lemma {:induction false} ClosedUntilReopened(
    open: bool, before: seq<ControlApi.ControlRequest>, after: seq<ControlApi.ControlRequest>,
    messages: seq<ChatEntry>, upstream: Upstream)
    requires forall r :: r in after ==> ControlApi.Effect(r) != Some(true)
    ensures var gate := ControlApi.Replay(open, before + [ControlApi.ControlRequest("POST", Some("!close"))] + after);
      Handle("POST", gate, messages, upstream) == Handled(Response(503, ErrorBody("服务已关闭")), None)
  {
    var reqs := before + [ControlApi.ControlRequest("POST", Some("!close"))] + after;
    ControlApi.ReplayIsLastEffect(open, reqs);
    ClosedStaysClosed(open, before, after);
  }

  lemma {:induction false} ClosedStaysClosed(
    open: bool, before: seq<ControlApi.ControlRequest>, after: seq<ControlApi.ControlRequest>)
    requires forall r :: r in after ==> ControlApi.Effect(r) != Some(true)
    ensures !ControlApi.LastEffect(open, before + [ControlApi.ControlRequest("POST", Some("!close"))] + after)
    decreases |after|
  {
    var reqs := before + [ControlApi.ControlRequest("POST", Some("!close"))] + after;
    if after == [] {
      assert reqs[|reqs| - 1] == ControlApi.ControlRequest("POST", Some("!close"));
    } else {
      var last := after[|after| - 1];
      assert reqs[|reqs| - 1] == last;
      assert last in after;
      var shorter := after[..|after| - 1];
      assert reqs[..|reqs| - 1] == before + [ControlApi.ControlRequest("POST", Some("!close"))] + shorter;
      forall r | r in shorter ensures ControlApi.Effect(r) != Some(true) {
        assert r in after;
      }
      ClosedStaysClosed(open, before, shorter);
    }
  }
}
