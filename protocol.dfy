/** Values exchanged between the chat page, the API routes and the upstream
    completion service: optional values, HTTP responses with their JSON
    bodies, and the role-tagged chat entries of a completion request. */
module Protocol {

  /** A JavaScript value that may be `undefined`. */
  datatype Option<+T> = None | Some(value: T)

  /** Truthiness of a `string | undefined` value: `undefined` and `''` are falsy. */
  predicate Truthy(v: Option<string>) {
    v.Some? && v.value != ""
  }

  /** The role of one entry of the `messages` array sent upstream. */
  datatype Role = UserRole | AssistantRole | SystemRole

  /** `{ role, content }` */
  datatype ChatEntry = ChatEntry(role: Role, content: string)

  /** The completion JSON the upstream service answers with. `Completion`
      has `choices[0].message.content` and `usage`; `OtherJson` is any JSON
      value lacking them (an upstream error object, say). */
  datatype Json =
    | Completion(content: string, promptTokens: nat, completionTokens: nat)
    | OtherJson

  /** The JSON body of a response sent by an API route. */
  datatype Body =
    | ErrorBody(error: string)       // { error }
    | MessageBody(message: string)   // { message }
    | ContentBody(content: string)   // { content }
    | Relayed(json: Json)            // upstream JSON, passed on unchanged

  datatype Response = Response(status: int, body: Body)

  /** What an API route does with a request: it sends exactly one response,
      or an exception escapes it and the framework answers with its own
      non-JSON error page. */
  datatype Outcome = Sent(response: Response) | Raised

  /** `response.ok` of the Fetch API. */
  predicate IsOk(status: int) {
    200 <= status <= 299
  }
}
