# gpt_online chat core, modelled in Dafny

This project models the core of a small web chat client and its API routes.

- **Chat page.** The page keeps a transcript and a per-directory document cache. On each send it does one of two things:
  - it forwards a `!close` or `!open` command to the control route;
  - or it builds the request context and calls the chat route. The context is the last 20 entries, optionally preceded by one `system` entry holding the documents of an `@name` mention. The page then shows the reply, or a notice, as a new entry.
- **Control route.** Sets the process-wide service gate.
- **Chat route.** Checks the method and the gate, then forwards the context to the upstream completion service. It relays the answer or maps the failure to 503, 504 or 500.
- **Document routes.** Two routes read a directory and concatenate one block per file.
- **Message view.** Splits a message's text around `@\S+` tokens and highlights them. It also shows the token counts.

## Modules

| file | module | models |
|---|---|---|
| `protocol.dfy` | `Protocol` | Shared values: JSON bodies, responses, the outcome of a route, and chat entries. |
| `whitespace.dfy` | `Whitespace` | The exact ECMAScript `\s` character class. Maximal runs of `\S`. |
| `control_api.dfy` | `ControlApi` | The control route as a transition function and as the class `ServiceGate` holding the gate flag. |
| `chat_api.dfy` | `ChatApi` | The chat route as a decision over the gate and the upstream result. |
| `file_system.dfy` | `FileSystem` | A directory listing and its rendering as concatenated blocks. |
| `read_docs.dfy` | `ReadDocsApi` | The document route: a loop proved against a specification function. |
| `read_pyi_files.dfy` | `ReadPyiFilesApi` | The stub-file route: a loop proved against a specification function. |
| `mention.dfy` | `Mention` | The first match of `/@(\S+)\s/`, with its regex-level characterisation. |
| `chat_page.dfy` | `ChatPage` | Context assembly, document lookup, reply handling, and the class `ChatSession` with `handleSendMessage`. |
| `chat_message.dfy` | `ChatMessageView` | `split(/(@\S+)/g)` with a characterisation that proves the split is unique. Also highlighting, the token lines and the style. |

Behaviour of the code worth noting:

- **One JSON body.** Nothing streams: the chat route answers with one JSON body, and the page reads it once.
- **Mentions need trailing whitespace.** A mention selects a directory only when whitespace follows it: `@(\S+)\s`. A bare `@name` at the end of the text selects nothing (`Mention.TrailingMentionIgnored`).
- **The timeout abort is a 503.** The 8-second abort is answered with 503. The page therefore shows it as "服务已关闭", a closed service (`ChatApi.TimerAbortIsServiceUnavailable`, `ChatPage.ChatRouteAsShown`). Only an error whose `code` is `ETIMEDOUT` gives 504.
- **The system entry holds the formatted block.** The injected `system` entry holds the document route's formatted blocks, each with its file name header and code fences (`ChatPage.DocsMentionScenario`, `ChatPage.FetchedDocsAreRendered`).

## Model

| member | source | states |
|---|---|---|
| Whitespace.RunEnd | app/chat/page.tsx:71 | The greedy `\S*` run from `i` ends at a whitespace character or at the end of the text, and holds no whitespace. |
| Whitespace.RunEndAt | app/chat/page.tsx:71 | A non-whitespace run followed by whitespace or by the end of the text is exactly what `\S*` consumes: the run is unique. |
| ControlApi.Effect | pages/api/control.ts:11-21 | A request changes the gate exactly when it is a POST of `!close` or `!open`. It closes the gate exactly for a POST of `!close`. |
| ControlApi.Transition | pages/api/control.ts:4-22 | A non-POST gets 405 "Method not allowed". `!close` gets 200 "服务已关闭" and closes the gate. `!open` gets 200 "服务已开启" and opens it. Any other POST gets 400 "Invalid command" and leaves the gate as it was. The result is 2xx exactly for those two commands. |
| ControlApi.ReplayIsLastEffect | pages/api/control.ts:11-19 | After any sequence of control requests, the gate holds the state set by the last accepted command. Refused requests in between change nothing. |
| ControlApi.TransitionIdempotent | pages/api/control.ts:11-21 | Repeating a control request changes neither the gate nor the answer. |
| ControlApi.ServiceGate.constructor | pages/api/control.ts:2 | The gate flag starts in the state given. |
| ControlApi.ServiceGate.HandleControl | pages/api/control.ts:4-22 | The flag after the call and the response are exactly `Transition` of the old flag and the request. |
| ChatApi.ThrownBy | pages/api/chat.ts:34-41 | Nothing is thrown exactly when upstream responded with an ok status and a body that parses. A non-ok status throws a plain `Error`. An ok status whose body fails to parse throws the parse error. A rejected call throws the rejection's value. |
| ChatApi.Classify | pages/api/chat.ts:42-57 | 503 "服务已关闭或请求超时" exactly for an `Error` named `AbortError`. 504 "AI请求超时，请稍后再试" exactly for another `Error` whose `code` is `ETIMEDOUT`. 500 "Error calling OpenAI API" for any other `Error`, and 500 "Unexpected error" for a value that is not an `Error`. The body is always `{ error }`. |
| ChatApi.Handle | pages/api/chat.ts:5-58 | Only 200, 405, 503, 504 or 500 are sent. A non-POST gets 405, and a closed gate gets 503 "服务已关闭"; neither calls upstream. Upstream is called, with model `gpt-4o-mini` and the posted messages, exactly for a POST with the gate open. The answer is 200 exactly when that call threw nothing, and the upstream JSON is then relayed unchanged. Otherwise the answer is the classification of what was thrown. |
| ChatApi.TimerAbortIsServiceUnavailable | pages/api/chat.ts:17-46 | The 8-second abort is answered 503 "服务已关闭或请求超时". This holds even when the error also carries `ETIMEDOUT`. |
| ChatApi.NotOkIsGenericFailure | pages/api/chat.ts:36-52 | Every non-ok upstream status becomes 500 "Error calling OpenAI API". |
| ChatApi.ClosedUntilReopened | pages/api/chat.ts:12-15 | After an accepted `!close`, and until an `!open` is accepted, the chat route answers 503 and calls nothing upstream, whatever the other control requests were. |
| ChatApi.ClosedStaysClosed | pages/api/control.ts:11-19 | After a `!close`, requests that do not open the gate leave it closed. |
| FileSystem.RenderSnoc | pages/api/readDocs.ts:16-22 | Appending a readable file to the listing appends exactly its block to the content: the loop's `content +=` step. |
| FileSystem.RenderLength | pages/api/readDocs.ts:17-22 | The content is as long as all the blocks together. |
| FileSystem.RenderPrefix | pages/api/readPyiFiles.ts:9-13 | The content after k files is a prefix of the content after k + 1 files. |
| ReadDocsApi.DocsOutcome | pages/api/readDocs.ts:5-25 | The route sends only 200, 400 or 404. It sends 200 exactly when it sends `{ content }`, and any other status carries `{ error }`. It throws exactly for a valid `dir` naming a directory with an unreadable entry. It sends 404 exactly for a valid `dir` that is not a directory. |
| ReadDocsApi.ReadDocs | pages/api/readDocs.ts:5-25 | The route loops over the listing, and its outcome equals `DocsOutcome`. A missing, empty or repeated `dir` gets 400. A path that is missing or is not a directory gets 404. A directory with an unreadable entry throws. Otherwise the route sends 200 with every file's block, in listing order. |
| ReadDocsApi.InvalidDirIgnoresFileSystem | pages/api/readDocs.ts:6-9 | An invalid `dir` gets 400 "Invalid directory name", whatever the file system holds. |
| ReadDocsApi.DocsContentShape | pages/api/readDocs.ts:16-24 | A 200 answer comes only from a valid `dir` naming a directory whose files are all readable. Its content is the blocks of all those files, as long as they are together. An empty directory gives `''`. |
| ReadPyiFilesApi.PyiOutcome | pages/api/readPyiFiles.ts:5-15 | The route answers exactly when `docs/pyi` is a directory whose entries are all readable. The answer is then 200 with `content` starting with the preamble. |
| ReadPyiFilesApi.ReadPyiFiles | pages/api/readPyiFiles.ts:5-15 | The route loops over the listing, and its outcome equals `PyiOutcome`. A readable directory gives 200 with the preamble followed by every file's block. Any other case throws. |
| ReadPyiFilesApi.PyiContentShape | pages/api/readPyiFiles.ts:8-14 | Every answer is 200 with `content` starting with the preamble. An empty directory gives exactly the preamble. |
| ReadPyiFilesApi.PyiContentGrows | pages/api/readPyiFiles.ts:9-13 | Each file only extends the content already built. |
| Mention.FindMentionFrom | app/chat/page.tsx:71 | A name found by the scan from a position is non-empty and holds no whitespace. |
| Mention.FindMention | app/chat/page.tsx:71 | A selected directory name is non-empty and holds no whitespace. |
| Mention.MatchAtPosition | app/chat/page.tsx:71 | At one position the regex matches in at most one way, with the whole non-whitespace run as its group. |
| Mention.FindMentionFromSound | app/chat/page.tsx:71-73 | A name found by the scan is the group of a match with no match before it. |
| Mention.FindMentionFromComplete | app/chat/page.tsx:71-73 | If the regex matches anywhere after the scan's start, the scan finds a name. |
| Mention.FindMentionSpec | app/chat/page.tsx:71-73 | A directory name is found exactly when `/@(\S+)\s/` matches. It is then the group of the leftmost match: a non-empty run of non-whitespace after `@` and before whitespace. |
| Mention.NoWhitespaceNoMention | app/chat/page.tsx:71 | Text without whitespace never selects a directory. |
| Mention.TrailingMentionIgnored | app/chat/page.tsx:71 | Appending `@name` with no whitespace after it never changes which directory is selected. |
| Mention.ScanAgrees | app/chat/page.tsx:71 | From any start position, the scan of the text with a trailing `@name` agrees with the scan of the text without it. |
| ChatPage.DocsFetchOf | app/chat/page.tsx:19-29 | `fetchDocsContent` fails exactly when the document route throws. It yields non-empty text exactly when the route sends a `content` that is not `''`. |
| ChatPage.FetchedDocsAreRendered | app/chat/page.tsx:19-29 | Non-empty fetched text comes only from a non-empty `dir` naming a directory with at least one file, all readable. The text is then exactly the blocks of those files. |
| ChatPage.ContextWindow | app/chat/page.tsx:61-68 | The window has min(20, n) entries. Entry `i` is transcript entry `n - |w| + i` as `{ role, content }`. |
| ChatPage.Context | app/chat/page.tsx:78-83 | The context is the window, preceded by one `system` entry with the text exactly when the text is non-empty. |
| ChatPage.Resolve | app/chat/page.tsx:71-77 | With no mention nothing is looked up and the cache is unchanged. The document route is called exactly for a mention whose cached text is empty or missing. A cache hit uses the cached text and leaves the cache as it was. An answered call uses its `content` and stores it under the name. A failed call uses `''` and stores nothing. No other name's entry changes. |
| ChatPage.MentionedDirectoryIsCached | app/chat/page.tsx:70-84 | After a send whose mention fetched non-empty text, a second send mentioning the same name calls no route. It leaves the cache as it was and posts the same text in front of its window. |
| ChatPage.AfterReply | app/chat/page.tsx:107-118 | Exactly one entry is appended and earlier entries keep their place. The user's entry is unchanged except that its request count becomes the prompt count on an answer. The appended entry is the `ai` answer with its completion count, or the `system` notice. |
| ChatPage.Send | app/chat/page.tsx:31-120 | A send adds exactly two entries after the earlier ones, the first being the user's text. It posts a context exactly when the message is not a command. It calls the document route only for a non-command with a mention. It changes no cache entry other than the mentioned name's. |
| ChatPage.CommandNotice | app/chat/page.tsx:37-58 | `!close` adds "服务已关闭" and `!open` adds "服务已开启", as answered by the control route, whatever the gate was. A command posts nothing and leaves the cache unchanged. A failed call adds "控制命令执行失败，请稍后再试。". |
| ChatPage.CommandRefused | app/chat/page.tsx:47-57 | A control answer that is not ok adds "控制命令执行失败，请稍后再试。" after the user's entry. |
| ChatPage.WindowIsLatestEntries | app/chat/page.tsx:61-68 | The window holds the last min(20, n) entries, oldest first, with their texts. The role is `user` exactly for user entries and never `system`. |
| ChatPage.ContextShape | app/chat/page.tsx:61-84 | The context has at most 20 window entries and at most one `system` entry in front. That entry is present exactly when the document text is non-empty. The last entry is the message just sent. |
| ChatPage.Interpret | app/chat/page.tsx:87-119 | The reply is an answer exactly when the chat route's status is ok and it relays a completion, and it then carries that completion's text and counts. A 503 shows "服务已关闭" and a 504 "AI请求超时，请稍后再试". A failed call, or any other non-ok status, shows "AI回复失败，请稍后再试。". |
| ChatPage.ChatTurn | app/chat/page.tsx:107-119 | Any other message adds exactly two entries, the user's and the reply, and leaves earlier entries unchanged. The user's entry is `{ text, user, requestTokens }`, where the request count is the prompt count on an answer and 0 otherwise. |
| ChatPage.HelloIsPostedAlone | app/chat/page.tsx:61-84 | "hello" sent to an empty transcript is posted as the single entry `{ user, "hello" }`. |
| ChatPage.ClosedGateNotice | app/chat/page.tsx:96-98 | While the gate is closed, a send adds the user's entry and exactly one "服务已关闭" notice. |
| ChatPage.ChatRouteAsShown | app/chat/page.tsx:96-118 | How the page shows each possible answer of an open chat route. The abort shows as a closed service, `ETIMEDOUT` as a timeout, any other failure as a failed reply, and a completion as an answer with its counts. |
| ChatPage.EmptyDirectoryInjectsNothing | app/chat/page.tsx:74-83 | A mentioned directory that is empty adds no `system` entry: the context is the window alone. |
| ChatPage.DocsMentionScenario | app/chat/page.tsx:70-84 | Sending "@docs please summarize" with a one-file `docs` directory posts `[system: the file's block, user: the message]`. It calls the document route and caches the block. |
| ChatPage.ChatSession.constructor | app/chat/page.tsx:16-17 | The transcript and the document cache start empty. |
| ChatPage.ChatSession.FetchDocsContent | app/chat/page.tsx:19-29 | A successful call stores its `content` under the name and returns it. A failed call returns `''` and changes nothing. |
| ChatPage.ChatSession.HandleSendMessage | app/chat/page.tsx:31-120 | The new transcript, the new cache, the posted context and whether the document route was called are exactly those of `Send` on the old state. |
| ChatMessageView.Split | components/ChatMessage.tsx:10 | The split has an odd number of parts. The odd-indexed parts are maximal `@\S+` matches. The other parts contain no match and do not end in an `@` that starts one. The parts join to the text. |
| ChatMessageView.HighlightText | components/ChatMessage.tsx:6-19 | A value that is not a string is returned unchanged. A string becomes one piece per part of its split, in order: the piece's text is the part, and it is highlighted exactly when the part starts with `@`. The pieces join to the string. |
| ChatMessageView.StyleOf | components/ChatMessage.tsx:23 | The AI style is chosen exactly for `ai` entries. |
| ChatMessageView.TokenLineOf | components/ChatMessage.tsx:27-32 | A `system` entry shows no count line. A request line is shown only for a `user` entry with a positive count, so a count of 0 shows nothing. |
| ChatMessageView.NextToken | components/ChatMessage.tsx:10 | The position found is the first match of `@\S+` at or after `p`, or the end of the text. |
| ChatMessageView.SplitFromConcat | components/ChatMessage.tsx:10 | Joining the parts of the split gives back the text. |
| ChatMessageView.PartitionIsSplitFrom | components/ChatMessage.tsx:10 | Any sequence of parts with that shape that joins to the text is the split. |
| ChatMessageView.SplitCharacterization | components/ChatMessage.tsx:10 | A sequence of parts is the split of a text if and only if it has that shape and joins to the text. |
| ChatMessageView.PartitionOddTokens | components/ChatMessage.tsx:10 | Every odd-indexed part of a split is a match of `@\S+`. |
| ChatMessageView.HighlightSpec | components/ChatMessage.tsx:6-19 | A non-string value is returned unchanged. A string becomes the pieces of its split, an odd number of them, that join to it. Every match of `@\S+` is a highlighted piece. A piece between matches is highlighted exactly when it starts with `@`. |
| ChatMessageView.BareAtIsHighlighted | components/ChatMessage.tsx:11-18 | In "@ hi" nothing matches, yet the whole text starts with `@` and is highlighted. |
| ChatMessageView.TokenLinesAfterSend | components/ChatMessage.tsx:23-32 | After a chat send, the user's entry shows a request line only for an answer with a positive prompt count. The reply shows the completion count and the AI style when it is an answer. A notice shows no count line and the user style. |

## Left out

- **Network and the upstream service.** The upstream completion service, the network and the 8-second timer are inputs. Each call's result (a status and a JSON body, a parse failure, or a rejection with an `Error` value) is a parameter, so timing is not modelled. The timer is cleared once headers arrive, so it never covers reading the body.
- **File system paths.** The file system is a lookup from a directory name to what lies at `docs/<name>`. `path.join` normalisation, `..` segments and symlinks are not modelled.
- **Initial gate state.** The gate's initial state lives in `utils/serviceStatus`, which is not part of this model. The `ServiceGate` constructor takes it as a parameter.
- **Uncaught exceptions.** An exception that escapes a route is the outcome `Raised`. The framework's non-JSON error page then makes the page's `response.json()` fail. Its contents and status are not modelled.
- **React scheduling.** Asynchronous state updates, batching, stale closures over `messages` and `docsContent`, and two sends interleaving are not modelled. `ChatSession.HandleSendMessage` runs one send to completion.
- **In-place token update.** The page sets `requestTokens` by mutating the user-message object in place (`app/chat/page.tsx:113`). The model replaces the last entry with an updated copy. Aliasing of that object with earlier renders is not captured.
- **Cache key lookup.** The document cache is a plain object, so keys such as `constructor` read inherited properties. The model is a map where a missing key reads as `undefined`.
- **URL encoding.** The directory name is interpolated into the URL unencoded. The model passes the name as-is, and the document route receives exactly the name.
- **Character model.** Strings are sequences of Unicode code points, not UTF-16 code units. Surrogate pairs are not modelled.
- **Markdown rendering.** ReactMarkdown and the markdown structure of a message are not modelled. `highlightText` is modelled on its string argument.
- **Rendering details.** `ChatInput`, styles and `console.error` logging are left out.
- **Missing completion fields.** A completion's `content` is always a string, so a `null` content, which the page would show as an empty `ai` entry, is not modelled. A JSON body without `choices` or `usage` is `OtherJson`. Reading its fields throws, and the model gives the "reply failed" notice.
- **Request bodies that are not objects.** Both routes destructure `req.body` outside any `try` (`pages/api/chat.ts:10`, `pages/api/control.ts:9`). A POST whose JSON body is `null` therefore throws there, before the gate check or the command check, and the framework answers with its error page. The model assumes every request body is an object. Its chat request carries the posted messages and its control request an optional command, so `ChatApi.Handle` and `ControlApi.Transition` do not capture that throw.
- ChatPage.Send: requires `WellFormedControl`, meaning every 2xx from the control route carries a `message`. `ControlApi.Transition` proves this for the real route. A 2xx without `message` would give an entry whose text is `undefined`, which is not modelled.
- ChatPage.ChatSession.HandleSendMessage: requires `WellFormedControl` for the same reason as `Send`.
