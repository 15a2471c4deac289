/** The control route: an operator command opens or closes the service
    gate, the process-wide switch that the chat route consults before it
    calls the upstream service. */
module ControlApi {
  import opened Protocol

  /** The request method (`verb`) and the `command` field of the JSON body
      (`None` when it is missing or is not a string). */
  datatype ControlRequest = ControlRequest(verb: string, command: Option<string>)

  const CloseCommand := "!close"
  const OpenCommand := "!open"

  /** The gate state a request asks for, if the route accepts it. */
  function Effect(req: ControlRequest): (r: Option<bool>)
    ensures r.Some? <==> req.verb == "POST" && req.command.Some? && req.command.value in {CloseCommand, OpenCommand}
    ensures r == Some(false) <==> req.verb == "POST" && req.command == Some(CloseCommand)
  {
    if req.verb == "POST" && req.command == Some(CloseCommand) then Some(false)
    else if req.verb == "POST" && req.command == Some(OpenCommand) then Some(true)
    else None
  }

  /** The gate state after the request and the response sent for it. */
  function Transition(open: bool, req: ControlRequest): (r: (bool, Response))
    ensures r.0 == (if Effect(req).Some? then Effect(req).value else open)
    ensures IsOk(r.1.status) <==> Effect(req).Some?
    ensures IsOk(r.1.status) ==> r.1.body.MessageBody?
    ensures req.verb != "POST" ==> r.1 == Response(405, ErrorBody("Method not allowed"))
    ensures Effect(req) == Some(false) ==> r.1 == Response(200, MessageBody("服务已关闭"))
    ensures Effect(req) == Some(true) ==> r.1 == Response(200, MessageBody("服务已开启"))
    ensures req.verb == "POST" && Effect(req).None? ==> r.1 == Response(400, ErrorBody("Invalid command"))
  {
    if req.verb != "POST" then (open, Response(405, ErrorBody("Method not allowed")))
    else if req.command == Some(CloseCommand) then (false, Response(200, MessageBody("服务已关闭")))
    else if req.command == Some(OpenCommand) then (true, Response(200, MessageBody("服务已开启")))
    else (open, Response(400, ErrorBody("Invalid command")))
  }

  /** The gate state after a sequence of control requests, one by one. */
  function Replay(open: bool, reqs: seq<ControlRequest>): bool
    decreases |reqs|
  {
    if reqs == [] then open else Replay(Transition(open, reqs[0]).0, reqs[1..])
  }

  /** The gate state asked for by the last accepted request, or the
      initial state when no request was accepted. */
  function LastEffect(open: bool, reqs: seq<ControlRequest>): bool
    decreases |reqs|
  {
    if reqs == [] then open
    else
      var last := reqs[|reqs| - 1];
      if Effect(last).Some? then Effect(last).value else LastEffect(open, reqs[..|reqs| - 1])
  }

  lemma {:induction false} LastEffectCons(open: bool, req: ControlRequest, rest: seq<ControlRequest>)
    ensures LastEffect(open, [req] + rest) == LastEffect(Transition(open, req).0, rest)
    decreases |rest|
  {
    if rest != [] {
      var all := [req] + rest;
      assert all[|all| - 1] == rest[|rest| - 1];
      assert all[..|all| - 1] == [req] + rest[..|rest| - 1];
      LastEffectCons(open, req, rest[..|rest| - 1]);
    }
  }

  /** Whatever invalid requests come in between, the gate ends in the state
      that the last accepted command set. */
  lemma {:induction false} ReplayIsLastEffect(open: bool, reqs: seq<ControlRequest>)
    ensures Replay(open, reqs) == LastEffect(open, reqs)
    decreases |reqs|
  {
    if reqs != [] {
      ReplayIsLastEffect(Transition(open, reqs[0]).0, reqs[1..]);
      assert reqs == [reqs[0]] + reqs[1..];
      LastEffectCons(open, reqs[0], reqs[1..]);
    }
  }

  /** Repeating a request changes neither the state nor the answer. */
  lemma TransitionIdempotent(open: bool, req: ControlRequest)
    ensures Transition(Transition(open, req).0, req) == Transition(open, req)
  {
  }

  /** The holder of the gate flag and the route that writes it. */
  class ServiceGate {
    var open: bool

    /** The initial state of the flag is not part of this model; it is
        given here. */
    constructor (initial: bool)
      ensures open == initial
    {
      open := initial;
    }

    method HandleControl(req: ControlRequest) returns (response: Response)
      modifies this
      ensures (open, response) == Transition(old(open), req)
    {
      if req.verb != "POST" {
        return Response(405, ErrorBody("Method not allowed"));
      }
      if req.command == Some(CloseCommand) {
        open := false;
        return Response(200, MessageBody("服务已关闭"));
      }
      if req.command == Some(OpenCommand) {
        open := true;
        return Response(200, MessageBody("服务已开启"));
      }
      return Response(400, ErrorBody("Invalid command"));
    }
  }
}
