/** The chat page: the transcript it shows, the cache of document texts it
    has looked up, and what happens when the user sends a message. The
    calls it makes to the control, document and chat routes are not
    modelled; what each call produced is an input. */
module ChatPage {
  import opened Protocol
  import Mention
  import ControlApi
  import ChatApi
  import ReadDocsApi
  import FileSystem
  import Whitespace

  datatype Sender = User | Ai | System

  /** One transcript entry. An absent token count is `None`. */
  datatype Message = Message(text: string, sender: Sender, requestTokens: Option<nat>, responseTokens: Option<nat>)

  /** The entry for a message the user sends; its request count starts at 0. */
  function UserEntry(text: string): Message {
    Message(text, User, Some(0), None)
  }

  function SystemEntry(text: string): Message {
    Message(text, System, None, None)
  }

  const ControlFailedText := "控制命令执行失败，请稍后再试。"
  const ClosedText := "服务已关闭"
  const TimeoutText := "AI请求超时，请稍后再试"
  const ReplyFailedText := "AI回复失败，请稍后再试。"

  /** How many of the latest entries are sent as context. */
  const WindowSize := 20

  predicate IsCommand(message: string) {
    message == ControlApi.CloseCommand || message == ControlApi.OpenCommand
  }

  // ---------------------------------------------------------------------
  // Context assembly

  function RoleOf(sender: Sender): Role {
    if sender == User then UserRole else AssistantRole
  }

  function ToEntry(m: Message): ChatEntry {
    ChatEntry(RoleOf(m.sender), m.text)
  }

  /** The last `WindowSize` entries, oldest first, as `{ role, content }`:
      entry `i` of the window is entry `|messages| - |w| + i` of the
      transcript. */
  function ContextWindow(messages: seq<Message>): (w: seq<ChatEntry>)
    ensures |w| == (if |messages| <= WindowSize then |messages| else WindowSize)
    ensures forall i :: 0 <= i < |w| ==> w[i] == ToEntry(messages[|messages| - |w| + i])
  {
    var n := if |messages| <= WindowSize then |messages| else WindowSize;
    seq(n, i requires 0 <= i < n => ToEntry(messages[|messages| - n + i]))
  }

  /** The context sent upstream: the window, after one `system` entry with
      the document text when that text is non-empty. */
  function Context(messages: seq<Message>, docs: Option<string>): (ctx: seq<ChatEntry>)
    ensures Truthy(docs) <==> |ctx| == |ContextWindow(messages)| + 1
    ensures |ctx| >= |ContextWindow(messages)| && ctx[|ctx| - |ContextWindow(messages)|..] == ContextWindow(messages)
    ensures Truthy(docs) ==> ctx[0] == ChatEntry(SystemRole, docs.value)
  {
    var window := ContextWindow(messages);
    if Truthy(docs) then [ChatEntry(SystemRole, docs.value)] + window else window
  }

  /** The window holds the last min(20, n) entries in their order, each
      with its text; the role is `user` exactly for the user's entries. */
  lemma WindowIsLatestEntries(messages: seq<Message>)
    ensures var w := ContextWindow(messages);
      |w| == (if |messages| <= WindowSize then |messages| else WindowSize) &&
      (forall i :: 0 <= i < |w| ==> w[i].content == messages[|messages| - |w| + i].text) &&
      (forall i :: 0 <= i < |w| ==> (w[i].role == UserRole <==> messages[|messages| - |w| + i].sender == User)) &&
      (forall i :: 0 <= i < |w| ==> w[i].role != SystemRole)
  {
  }

  /** At most 20 window entries plus at most one `system` entry in front;
      the front entry is there exactly when the document text is non-empty;
      the last entry is the message just sent. */
  lemma {:induction false} ContextShape(earlier: seq<Message>, message: string, docs: Option<string>)
    ensures var ctx := Context(earlier + [UserEntry(message)], docs);
      var window := ContextWindow(earlier + [UserEntry(message)]);
      1 <= |window| <= WindowSize &&
      |ctx| <= WindowSize + 1 &&
      (Truthy(docs) <==> |ctx| == |window| + 1) &&
      (Truthy(docs) ==> ctx == [ChatEntry(SystemRole, docs.value)] + window) &&
      (!Truthy(docs) ==> ctx == window) &&
      ctx[|ctx| - 1] == ChatEntry(UserRole, message)
  {
    var messages := earlier + [UserEntry(message)];
    WindowIsLatestEntries(messages);
    var w := ContextWindow(messages);
    assert messages[|messages| - |w| + (|w| - 1)] == UserEntry(message);
  }

  // ---------------------------------------------------------------------
  // Document lookup

  /** What the page got from the document route: the `content` field of
      the JSON answer (`None` when the answer has none), or a failure of
      the request or of reading its body as JSON. */
  datatype DocsFetch = Answered(content: Option<string>) | FetchFailed

  /** How the page reads the document route's outcome: every JSON answer,
      whatever its status, is read for `content`; an escaped exception gives
      a non-JSON page, which fails to parse. */
  function DocsFetchOf(outcome: Outcome): (f: DocsFetch)
    ensures f.FetchFailed? <==> outcome.Raised?
    ensures f.Answered? && Truthy(f.content) <==>
      outcome.Sent? && outcome.response.body.ContentBody? && outcome.response.body.content != ""
  {
    match outcome
    case Raised => FetchFailed
    case Sent(r) => if r.body.ContentBody? then Answered(Some(r.body.content)) else Answered(None)
  }

  /** What the cache holds for a name; a missing key reads as `undefined`. */
  function Cached(cache: map<string, Option<string>>, name: string): Option<string> {
    if name in cache then cache[name] else None
  }

  /** The document text a send uses, the cache after it, and whether the
      document route was called. */
  datatype Resolution = Resolution(docs: Option<string>, cache: map<string, Option<string>>, fetched: bool)

  /** The route is called exactly for a mention whose cached text is empty
      or missing. A cache hit uses the cached text and changes nothing; an
      answered call uses its `content` and caches it under the mentioned
      name; a failed call uses `''` and caches nothing. No other name's
      cached text changes. */
  function Resolve(cache: map<string, Option<string>>, message: string, fetch: DocsFetch): (r: Resolution)
    ensures r.fetched <==> Mention.FindMention(message).Some? && !Truthy(Cached(cache, Mention.FindMention(message).value))
    ensures Truthy(r.docs) ==> Mention.FindMention(message).Some? && Cached(r.cache, Mention.FindMention(message).value) == r.docs
    ensures cache.Keys <= r.cache.Keys
    ensures forall k :: Mention.FindMention(message) != Some(k) ==> Cached(r.cache, k) == Cached(cache, k)
    ensures Mention.FindMention(message).Some? && Truthy(Cached(cache, Mention.FindMention(message).value)) ==>
      r.docs == Cached(cache, Mention.FindMention(message).value) && r.cache == cache
    ensures r.fetched && fetch.Answered? ==>
      r.docs == fetch.content && r.cache == cache[Mention.FindMention(message).value := fetch.content]
    ensures r.fetched && fetch.FetchFailed? ==> r.docs == Some("") && r.cache == cache
    ensures Mention.FindMention(message).None? ==> r == Resolution(None, cache, false)
  {
    match Mention.FindMention(message)
    case None => Resolution(None, cache, false)
    case Some(name) =>
      if Truthy(Cached(cache, name)) then Resolution(Cached(cache, name), cache, false)
      else match fetch
        case Answered(content) => Resolution(content, cache[name := content], true)
        case FetchFailed => Resolution(Some(""), cache, true)
  }

  /** Documents that the page used for a mention are cached: the next
      send that mentions the same name calls no route and posts the same
      text in front of its window. */
  lemma MentionedDirectoryIsCached(messages: seq<Message>, cache: map<string, Option<string>>,
                                   message: string, control: ControlCall, fetch: DocsFetch, chat: ChatCall,
                                   message2: string, control2: ControlCall, fetch2: DocsFetch, chat2: ChatCall)
    requires WellFormedControl(control) && WellFormedControl(control2)
    requires !IsCommand(message) && !IsCommand(message2)
    requires Mention.FindMention(message).Some? && Mention.FindMention(message2) == Mention.FindMention(message)
    requires fetch.Answered? && Truthy(fetch.content)
    ensures var t1 := Send(messages, cache, message, control, fetch, chat);
      var t2 := Send(t1.messages, t1.cache, message2, control2, fetch2, chat2);
      var docs := Resolve(cache, message, fetch).docs;
      Truthy(docs) && t1.context == Some(Context(messages + [UserEntry(message)], docs)) &&
      !t2.fetched && t2.cache == t1.cache &&
      t2.context == Some(Context(t1.messages + [UserEntry(message2)], docs))
  {
  }

  /** Only a non-empty `content` of a 200 answer is injected: the route's
      400 and 404 answers, a failed read and an empty directory give no
      document text. */
  lemma FetchedDocsAreRendered(name: string, lookup: string -> FileSystem.PathStatus)
    requires var f := DocsFetchOf(ReadDocsApi.DocsOutcome(ReadDocsApi.Single(name), lookup));
      f.Answered? && Truthy(f.content)
    ensures name != "" && lookup(name).DirectoryOf? && lookup(name).entries != []
    ensures FileSystem.AllReadable(lookup(name).entries)
    ensures DocsFetchOf(ReadDocsApi.DocsOutcome(ReadDocsApi.Single(name), lookup))
         == Answered(Some(FileSystem.Render(lookup(name).entries, ReadDocsApi.DocsBlock)))
  {
    var outcome := ReadDocsApi.DocsOutcome(ReadDocsApi.Single(name), lookup);
    assert outcome.Sent? && outcome.response.body.ContentBody?;
    assert ReadDocsApi.ValidDir(ReadDocsApi.Single(name)) && lookup(name).DirectoryOf?;
    var entries := lookup(name).entries;
    assert FileSystem.AllReadable(entries);
    assert outcome.response.body.content == FileSystem.Render(entries, ReadDocsApi.DocsBlock);
  }

  // ---------------------------------------------------------------------
  // Replies

  /** What the page got from the control route. */
  datatype ControlCall = ControlDelivered(response: Response) | ControlFailed

  /** The control route answers every 2xx with a `message`. */
  predicate WellFormedControl(call: ControlCall) {
    call.ControlDelivered? && IsOk(call.response.status) ==> call.response.body.MessageBody?
  }

  /** The text of the entry a command adds. */
  function ControlNotice(call: ControlCall): string
    requires WellFormedControl(call)
  {
    if call.ControlDelivered? && IsOk(call.response.status) then call.response.body.message
    else ControlFailedText
  }

  /** What the page got from the chat route. */
  datatype ChatCall = Delivered(response: Response) | CallFailed

  /** How the page reads the chat route's answer. */
  datatype Reply = Answer(content: string, promptTokens: nat, completionTokens: nat) | Notice(text: string)

  function Interpret(call: ChatCall): (reply: Reply)
    ensures reply.Answer? <==> call.Delivered? && IsOk(call.response.status) && call.response.body.Relayed?
                                && call.response.body.json.Completion?
    ensures reply.Notice? ==> reply.text in {ClosedText, TimeoutText, ReplyFailedText}
    ensures reply.Answer? ==> reply == Answer(call.response.body.json.content, call.response.body.json.promptTokens,
                                              call.response.body.json.completionTokens)
    ensures call.Delivered? && call.response.status == 503 ==> reply == Notice(ClosedText)
    ensures call.Delivered? && call.response.status == 504 ==> reply == Notice(TimeoutText)
    ensures call.CallFailed? || (call.Delivered? && !IsOk(call.response.status) && call.response.status !in {503, 504})
            ==> reply == Notice(ReplyFailedText)
  {
    match call
    case CallFailed => Notice(ReplyFailedText)
    case Delivered(r) =>
      if !IsOk(r.status) then
        if r.status == 503 then Notice(ClosedText)
        else if r.status == 504 then Notice(TimeoutText)
        else Notice(ReplyFailedText)
      else if r.body.Relayed? && r.body.json.Completion? then
        Answer(r.body.json.content, r.body.json.promptTokens, r.body.json.completionTokens)
      else Notice(ReplyFailedText)
  }

  /** The transcript after the reply: on an answer the user's entry gets
      the prompt token count and an `ai` entry follows; otherwise a
      `system` entry with the notice follows. */
  function AfterReply(messages: seq<Message>, reply: Reply): (after: seq<Message>)
    requires |messages| > 0
    ensures |after| == |messages| + 1 && after[..|messages| - 1] == messages[..|messages| - 1]
    ensures after[|messages| - 1] == messages[|messages| - 1].(requestTokens :=
      if reply.Answer? then Some(reply.promptTokens) else messages[|messages| - 1].requestTokens)
    ensures reply.Answer? ==> after[|messages|] == Message(reply.content, Ai, None, Some(reply.completionTokens))
    ensures reply.Notice? ==> after[|messages|] == SystemEntry(reply.text)
  {
    match reply
    case Answer(content, prompt, completion) =>
      var last := |messages| - 1;
      messages[last := messages[last].(requestTokens := Some(prompt))] + [Message(content, Ai, None, Some(completion))]
    case Notice(text) => messages + [SystemEntry(text)]
  }

  // ---------------------------------------------------------------------
  // One send

  /** The state after a send: transcript, cache, the context posted to the
      chat route (none for a command) and whether the document route was
      called. */
  datatype Turn = Turn(messages: seq<Message>, cache: map<string, Option<string>>, context: Option<seq<ChatEntry>>, fetched: bool)

  function Send(messages: seq<Message>, cache: map<string, Option<string>>, message: string,
                control: ControlCall, fetch: DocsFetch, chat: ChatCall): (t: Turn)
    requires WellFormedControl(control)
    ensures |t.messages| == |messages| + 2 && t.messages[..|messages|] == messages
    ensures t.messages[|messages|].text == message && t.messages[|messages|].sender == User
    ensures t.context.None? <==> IsCommand(message)
    ensures t.fetched ==> !IsCommand(message) && Mention.FindMention(message).Some?
    ensures forall k :: Mention.FindMention(message) != Some(k) ==> Cached(t.cache, k) == Cached(cache, k)
  {
    var newMessages := messages + [UserEntry(message)];
    if IsCommand(message) then
      Turn(newMessages + [SystemEntry(ControlNotice(control))], cache, None, false)
    else
      var r := Resolve(cache, message, fetch);
      Turn(AfterReply(newMessages, Interpret(chat)), r.cache, Some(Context(newMessages, r.docs)), r.fetched)
  }

  /** A command sent through the control route adds the route's message:
      `!close` adds "service closed" and `!open` adds "service opened",
      whatever the gate was. A failed call adds the control failure
      text. A command posts nothing, calls no
      document route and leaves the cache as it was. */
  lemma CommandNotice(messages: seq<Message>, cache: map<string, Option<string>>, open: bool, command: string,
                      fetch: DocsFetch, chat: ChatCall)
    requires IsCommand(command)
    ensures var control := ControlDelivered(ControlApi.Transition(open, ControlApi.ControlRequest("POST", Some(command))).1);
      WellFormedControl(control) &&
      Send(messages, cache, command, control, fetch, chat)
        == Turn(messages + [UserEntry(command),
                            SystemEntry(if command == ControlApi.CloseCommand then ClosedText else "服务已开启")],
                cache, None, false)
    ensures Send(messages, cache, command, ControlFailed, fetch, chat).messages
         == messages + [UserEntry(command), SystemEntry(ControlFailedText)]
  {
  }

  /** A control answer that is not ok adds the control failure text, as a
      failed call does. */
  lemma CommandRefused(messages: seq<Message>, cache: map<string, Option<string>>, command: string,
                       response: Response, fetch: DocsFetch, chat: ChatCall)
    requires IsCommand(command) && !IsOk(response.status)
    ensures Send(messages, cache, command, ControlDelivered(response), fetch, chat).messages
         == messages + [UserEntry(command), SystemEntry(ControlFailedText)]
  {
  }

  /** Any other message adds exactly two entries, the user's and one reply,
      and leaves the earlier entries as they were; the user's entry keeps a
      request count of 0 unless the reply is an answer. */
  lemma {:induction false} ChatTurn(messages: seq<Message>, cache: map<string, Option<string>>, message: string,
                                    control: ControlCall, fetch: DocsFetch, chat: ChatCall)
    requires WellFormedControl(control) && !IsCommand(message)
    ensures var t := Send(messages, cache, message, control, fetch, chat);
      var reply := Interpret(chat);
      |t.messages| == |messages| + 2 &&
      t.messages[..|messages|] == messages &&
      t.messages[|messages|] == UserEntry(message).(requestTokens :=
        if reply.Answer? then Some(reply.promptTokens) else Some(0)) &&
      t.messages[|messages| + 1] == (match reply
        case Answer(content, _, completion) => Message(content, Ai, None, Some(completion))
        case Notice(text) => SystemEntry(text)) &&
      t.context.Some?
  {
    var newMessages := messages + [UserEntry(message)];
    var t := Send(messages, cache, message, control, fetch, chat);
    assert t.messages == AfterReply(newMessages, Interpret(chat));
    assert newMessages[..|messages|] == messages;
    match Interpret(chat)
    case Answer(content, prompt, completion) =>
      var updated := newMessages[|messages| := newMessages[|messages|].(requestTokens := Some(prompt))];
      assert updated[..|messages|] == messages;
      assert t.messages[..|messages|] == updated[..|messages|];
    case Notice(text) =>
      assert t.messages[..|messages|] == newMessages[..|messages|];
  }

  /** Scenario: "hello" sent to an empty transcript is posted alone, with
      no `system` entry. */
  lemma HelloIsPostedAlone(cache: map<string, Option<string>>, control: ControlCall, fetch: DocsFetch, chat: ChatCall)
    requires WellFormedControl(control)
    ensures Send([], cache, "hello", control, fetch, chat).context == Some([ChatEntry(UserRole, "hello")])
  {
    Mention.NoWhitespaceNoMention("hello");
    var newMessages := [] + [UserEntry("hello")];
    assert newMessages == [UserEntry("hello")];
    WindowIsLatestEntries(newMessages);
    var w := ContextWindow(newMessages);
    assert w == [ChatEntry(UserRole, "hello")];
  }

  /** While the gate is closed, the chat route's answer puts exactly one
      notice, "service closed", after the user's entry. */
  lemma {:induction false} ClosedGateNotice(messages: seq<Message>, cache: map<string, Option<string>>, message: string,
                                            control: ControlCall, fetch: DocsFetch,
                                            posted: seq<ChatEntry>, upstream: ChatApi.Upstream)
    requires WellFormedControl(control) && !IsCommand(message)
    ensures var chat := Delivered(ChatApi.Handle("POST", false, posted, upstream).response);
      Send(messages, cache, message, control, fetch, chat).messages
        == messages + [UserEntry(message), SystemEntry(ClosedText)]
  {
    var chat := Delivered(ChatApi.Handle("POST", false, posted, upstream).response);
    assert Interpret(chat) == Notice(ClosedText);
  }

  /** How the page shows each answer of an open chat route: the 8-second
      abort is shown as a closed service, an `ETIMEDOUT` error as a
      timeout, any other failure as a failed reply, and a completion as an
      answer with its token counts. */
  lemma {:induction false} ChatRouteAsShown(posted: seq<ChatEntry>, upstream: ChatApi.Upstream)
    ensures var reply := Interpret(Delivered(ChatApi.Handle("POST", true, posted, upstream).response));
      match ChatApi.ThrownBy(upstream)
      case Some(e) =>
        reply == Notice(
          if e.ErrorValue? && e.name == "AbortError" then ClosedText
          else if e.ErrorValue? && e.code == Some("ETIMEDOUT") then TimeoutText
          else ReplyFailedText)
      case None =>
        var json := upstream.read.json;
        reply == (if json.Completion? then Answer(json.content, json.promptTokens, json.completionTokens)
                  else Notice(ReplyFailedText))
  {
    var h := ChatApi.Handle("POST", true, posted, upstream);
    match ChatApi.ThrownBy(upstream)
    case Some(e) =>
      assert h.response == ChatApi.Classify(e);
    case None =>
      assert h.response.body == Relayed(upstream.read.json);
  }

  /** An empty document directory gives empty content, which the page
      treats as no document: the context is the window alone. */
  lemma EmptyDirectoryInjectsNothing(messages: seq<Message>, cache: map<string, Option<string>>, message: string,
                                     control: ControlCall, chat: ChatCall, lookup: string -> FileSystem.PathStatus)
    requires WellFormedControl(control) && !IsCommand(message)
    requires Mention.FindMention(message).Some?
    requires !Truthy(Cached(cache, Mention.FindMention(message).value))
    requires lookup(Mention.FindMention(message).value) == FileSystem.DirectoryOf([])
    ensures var name := Mention.FindMention(message).value;
      var fetch := DocsFetchOf(ReadDocsApi.DocsOutcome(ReadDocsApi.Single(name), lookup));
      Send(messages, cache, message, control, fetch, chat).context == Some(ContextWindow(messages + [UserEntry(message)]))
  {
    var name := Mention.FindMention(message).value;
    var s := message;
    var q, k := Mention.FindMentionFromSound(s, 0);
    assert name == s[q + 1..q + 1 + k] && |name| == k >= 1;
    assert ReadDocsApi.DocsOutcome(ReadDocsApi.Single(name), lookup) == Sent(Response(200, ContentBody("")));
  }

  /** Scenario: "@docs please summarize" sent to an empty transcript, when
      the directory `docs` holds one file, posts that file's block as a
      `system` entry and then the message. */
  lemma DocsMentionScenario(cache: map<string, Option<string>>, control: ControlCall, chat: ChatCall,
                            lookup: string -> FileSystem.PathStatus, fileName: string, text: string)
    requires WellFormedControl(control)
    requires "docs" !in cache
    requires lookup("docs") == FileSystem.DirectoryOf([FileSystem.Entry(fileName, FileSystem.Readable(text))])
    ensures var message := "@docs please summarize";
      var fetch := DocsFetchOf(ReadDocsApi.DocsOutcome(ReadDocsApi.Single("docs"), lookup));
      var t := Send([], cache, message, control, fetch, chat);
      t.context == Some([ChatEntry(SystemRole, ReadDocsApi.DocsBlock(fileName, text)), ChatEntry(UserRole, message)])
    ensures var fetch := DocsFetchOf(ReadDocsApi.DocsOutcome(ReadDocsApi.Single("docs"), lookup));
      var t := Send([], cache, "@docs please summarize", control, fetch, chat);
      t.fetched && t.cache == cache["docs" := Some(ReadDocsApi.DocsBlock(fileName, text))]
  {
    var message := "@docs please summarize";
    var block := ReadDocsApi.DocsBlock(fileName, text);
    DocsMessageMentionsDocs();
    OneFileFetch(lookup, fileName, text);
    assert block[..3] == "文件名";
    FirstSendWithDocs(cache, message, "docs", control, chat, block);
  }

  /** The first send of a message that mentions `name`, when the route
      answers non-empty `docs`, posts them before the message. */
  lemma FirstSendWithDocs(cache: map<string, Option<string>>, message: string, name: string,
                          control: ControlCall, chat: ChatCall, docs: string)
    requires WellFormedControl(control) && !IsCommand(message)
    requires Mention.FindMention(message) == Some(name) && name !in cache && docs != ""
    ensures var t := Send([], cache, message, control, Answered(Some(docs)), chat);
      t.context == Some([ChatEntry(SystemRole, docs), ChatEntry(UserRole, message)]) &&
      t.fetched && t.cache == cache[name := Some(docs)]
  {
    var newMessages := [] + [UserEntry(message)];
    assert newMessages == [UserEntry(message)];
    SingleEntryWindow(message);
    assert Resolve(cache, message, Answered(Some(docs))) == Resolution(Some(docs), cache[name := Some(docs)], true);
    assert Context(newMessages, Some(docs)) == [ChatEntry(SystemRole, docs)] + [ChatEntry(UserRole, message)];
    assert [ChatEntry(SystemRole, docs)] + [ChatEntry(UserRole, message)]
        == [ChatEntry(SystemRole, docs), ChatEntry(UserRole, message)];
    assert Send([], cache, message, control, Answered(Some(docs)), chat).context == Some(Context(newMessages, Some(docs)));
  }

  lemma OneFileFetch(lookup: string -> FileSystem.PathStatus, fileName: string, text: string)
    requires lookup("docs") == FileSystem.DirectoryOf([FileSystem.Entry(fileName, FileSystem.Readable(text))])
    ensures DocsFetchOf(ReadDocsApi.DocsOutcome(ReadDocsApi.Single("docs"), lookup))
         == Answered(Some(ReadDocsApi.DocsBlock(fileName, text)))
  {
    OneFileRender(fileName, text);
  }

  lemma DocsMessageMentionsDocs()
    ensures Mention.FindMention("@docs please summarize") == Some("docs")
  {
    var message := "@docs please summarize";
    assert Whitespace.NoSpace(message[1..5]);
    Whitespace.RunEndAt(message, 1, 5);
    assert message[1..5] == "docs";
    assert Whitespace.RunEnd(message, 1) == 5;
    assert message[..1] == "@";
    assert message[0] == '@';
  }

  lemma OneFileRender(fileName: string, text: string)
    ensures var entries := [FileSystem.Entry(fileName, FileSystem.Readable(text))];
      FileSystem.AllReadable(entries) &&
      FileSystem.Render(entries, ReadDocsApi.DocsBlock) == ReadDocsApi.DocsBlock(fileName, text)
  {
    var entries := [FileSystem.Entry(fileName, FileSystem.Readable(text))];
    assert entries[1..] == [];
  }

  lemma SingleEntryWindow(message: string)
    ensures ContextWindow([UserEntry(message)]) == [ChatEntry(UserRole, message)]
  {
    WindowIsLatestEntries([UserEntry(message)]);
  }

  /** The page holds the transcript and the document cache and updates
      both, step by step, as a send proceeds. */
  class ChatSession {
    var messages: seq<Message>
    var docsContent: map<string, Option<string>>

    constructor ()
      ensures messages == [] && docsContent == map[]
    {
      messages := [];
      docsContent := map[];
    }

    /** Calls the document route for `dirName`; stores and returns the
        `content` of its answer, or returns `''` when the call fails. */
    method FetchDocsContent(dirName: string, fetch: DocsFetch) returns (content: Option<string>)
      modifies this`docsContent
      ensures fetch.Answered? ==> content == fetch.content && docsContent == old(docsContent)[dirName := fetch.content]
      ensures fetch.FetchFailed? ==> content == Some("") && docsContent == old(docsContent)
    {
      match fetch
      case Answered(c) =>
        docsContent := docsContent[dirName := c];
        content := c;
      case FetchFailed =>
        content := Some("");
    }

    method HandleSendMessage(message: string, control: ControlCall, fetch: DocsFetch, chat: ChatCall)
      returns (context: Option<seq<ChatEntry>>, fetched: bool)
      requires WellFormedControl(control)
      modifies this
      ensures Turn(messages, docsContent, context, fetched)
           == Send(old(messages), old(docsContent), message, control, fetch, chat)
    {
      var newMessages := messages + [UserEntry(message)];
      messages := newMessages;

      if message == ControlApi.CloseCommand || message == ControlApi.OpenCommand {
        messages := newMessages + [SystemEntry(ControlNotice(control))];
        return None, false;
      }

      ghost var r := Resolve(docsContent, message, fetch);
      var ctx := ContextWindow(newMessages);
      fetched := false;
      var mention := Mention.FindMention(message);
      if mention.Some? {
        var dirName := mention.value;
        var dirContent := Cached(docsContent, dirName);
        if !Truthy(dirContent) {
          dirContent := FetchDocsContent(dirName, fetch);
          fetched := true;
        }
        if Truthy(dirContent) {
          ctx := [ChatEntry(SystemRole, dirContent.value)] + ctx;
        }
      }
      assert ctx == Context(newMessages, r.docs) && docsContent == r.cache && fetched == r.fetched;
      context := Some(ctx);

      match Interpret(chat)
      case Answer(content, prompt, completion) =>
        var last := |newMessages| - 1;
        newMessages := newMessages[last := newMessages[last].(requestTokens := Some(prompt))];
        messages := newMessages + [Message(content, Ai, None, Some(completion))];
      case Notice(text) =>
        messages := newMessages + [SystemEntry(text)];
    }
  }
}
