/**
 * The conversation and extraction logic of the assistant client: the
 * per-user thread cache, resolving the assistant id, polling a run until it
 * ends, and turning the assistant's reply into an event.
 *
 * Every remote call is an input: an existence probe (`Threads.Get`,
 * `Assistants.Get`) is a predicate on ids, a creation or listing is its
 * result (`None` when the call failed), and the run statuses that
 * successive `Runs.Get` calls return are a finite sequence. `json.Unmarshal`
 * and `time.Parse(time.RFC3339, ·)` are partial functions; `time.Now()` is a
 * parameter.
 */
module OpenAI {
  import opened Wrappers
  import opened Text
  import opened Time

  /** The event handed to the calendar encoder. */
  datatype Event = Event(title: string, description: string, location: string, start: Timestamp, end: Timestamp)

  /** The five string fields `json.Unmarshal` fills from the reply. */
  datatype EventData = EventData(title: string, description: string, location: string, startTime: string, endTime: string)

  /** One block of a message's content; `kind` is its type tag ("text", "image_file", ...). */
  datatype ContentBlock = ContentBlock(kind: string, text: string)

  datatype Message = Message(role: string, content: seq<ContentBlock>)

  datatype Assistant = Assistant(id: string, name: string)

  /** What a remote `Runs.Get` call gave: a run status, or an error. */
  datatype RunPoll = Status(status: string) | FetchFailed

  datatype ClientError =
    | ThreadCreateFailed
    | AssistantListFailed
    | RunFetchFailed
    | MessageListFailed
    | NoMessages
    | UnexpectedRole(role: string)
    | NoTextContent
    | EventParseFailed
    | RunFailed(status: string)
    | RunRequiresAction

  /** `json.Unmarshal` into the five-field record: `None` when the text is not such a JSON object. */
  type JsonDecoder = string -> Option<EventData>

  /** `time.Parse(time.RFC3339, ·)`: `None` when the text is not an RFC 3339 section 5.6 date-time. */
  type TimeParser = string -> Option<Timestamp>

  const DefaultAssistantName := "Calendar Assistant"
  const AssistantRole := "assistant"
  const TextBlock := "text"

  // ---------------------------------------------------------------------------
  // Thread cache: user id -> thread id
  // ---------------------------------------------------------------------------

  /**
   * Resolving a user's thread against a cache: the cached thread is reused
   * while the remote service still knows it; otherwise the newly created
   * thread is cached for that user alone, and a failed creation leaves the
   * cache as it was.
   */
  function ResolveThread(cache: map<string, string>, user: string, threadExists: string -> bool, created: Option<string>)
    : (out: (Result<string, ClientError>, map<string, string>))
    ensures user in cache && threadExists(cache[user]) ==> out == (Ok(cache[user]), cache)
    ensures out.0.Ok? ==> user in out.1 && out.1[user] == out.0.value
    ensures out.0.Err? ==> out.0.error == ThreadCreateFailed && out.1 == cache && created.None?
    ensures forall u :: u != user ==> (u in out.1 <==> u in cache) && (u in cache ==> out.1[u] == cache[u])
    ensures out.1 != cache ==> created.Some? && out.1 == cache[user := created.value]
    ensures !(user in cache && threadExists(cache[user])) && created.Some? ==>
      out == (Ok(created.value), cache[user := created.value])
    ensures !(user in cache && threadExists(cache[user])) && created.None? ==> out == (Err(ThreadCreateFailed), cache)
  {
    if user in cache && threadExists(cache[user]) then (Ok(cache[user]), cache)
    else
      match created
      case None => (Err(ThreadCreateFailed), cache)
      case Some(id) => (Ok(id), cache[user := id])
  }

  /** A user seen for the first time gets the new thread, and asking again reuses it while it exists. */
  lemma ResolveThenReuse(cache: map<string, string>, user: string, threadExists: string -> bool, id: string, again: Option<string>)
    requires user !in cache
    requires threadExists(id)
    ensures var (r1, c1) := ResolveThread(cache, user, threadExists, Some(id));
      && r1 == Ok(id)
      && ResolveThread(c1, user, threadExists, again) == (Ok(id), c1)
  {
  }

  /** Evicting a user's thread forces the next resolution to create one. */
  lemma EvictThenResolveCreates(cache: map<string, string>, user: string, threadExists: string -> bool, created: Option<string>)
    ensures var (r, _) := ResolveThread(EvictThread(cache, user), user, threadExists, created);
      r == (if created.Some? then Ok(created.value) else Err(ThreadCreateFailed))
  {
  }

  /** `ClearThreadForUser` on the cache: forget the user's thread, if any. */
  function EvictThread(cache: map<string, string>, user: string): (c: map<string, string>)
    ensures user !in c
    ensures forall u :: u != user ==> (u in c <==> u in cache) && (u in cache ==> c[u] == cache[u])
  {
    if user in cache then cache - {user} else cache
  }

  /** Evicting twice is evicting once, and evicting an absent user changes nothing. */
  lemma EvictThreadIdempotent(cache: map<string, string>, user: string)
    ensures EvictThread(EvictThread(cache, user), user) == EvictThread(cache, user)
    ensures user !in cache ==> EvictThread(cache, user) == cache
  {
  }

  // ---------------------------------------------------------------------------
  // Assistant id
  // ---------------------------------------------------------------------------

  /** Index of the first assistant called `name` in a listing, or -1. */
  function FirstNamedIndex(assistants: seq<Assistant>, name: string): (k: int)
    ensures -1 <= k < |assistants|
    ensures k == -1 <==> forall i :: 0 <= i < |assistants| ==> assistants[i].name != name
    ensures k >= 0 ==> assistants[k].name == name && forall j :: 0 <= j < k ==> assistants[j].name != name
  {
    if assistants == [] then -1
    else if assistants[0].name == name then 0
    else
      var k := FirstNamedIndex(assistants[1..], name);
      if k == -1 then -1 else k + 1
  }

  /** The id the client adopts from a listing: the first match's id, or "" when nothing matches. */
  function AdoptedId(assistants: seq<Assistant>, name: string): (id: string)
    ensures (forall i :: 0 <= i < |assistants| ==> assistants[i].name != name) ==> id == ""
    ensures (exists i :: 0 <= i < |assistants| && assistants[i].name == name) ==>
      exists i :: 0 <= i < |assistants| && assistants[i].name == name && assistants[i].id == id
                  && forall j :: 0 <= j < i ==> assistants[j].name != name
  {
    var k := FirstNamedIndex(assistants, name);
    if k >= 0 then assistants[k].id else ""
  }

  // ---------------------------------------------------------------------------
  // Response handling
  // ---------------------------------------------------------------------------

  /** The text of the first content block of type "text", or "" when there is none. */
  function FirstText(content: seq<ContentBlock>): (text: string)
    ensures text != "" ==> exists k :: 0 <= k < |content| && content[k].kind == TextBlock && content[k].text == text
  {
    if content == [] then ""
    else if content[0].kind == TextBlock then content[0].text
    else
      var text := FirstText(content[1..]);
      assert text != "" ==> exists k :: 1 <= k < |content| && content[k].kind == TextBlock && content[k].text == text by {
        if text != "" {
          var k :| 0 <= k < |content[1..]| && content[1..][k].kind == TextBlock && content[1..][k].text == text;
          assert content[k + 1] == content[1..][k];
        }
      }
      text
  }

  /** `FirstText` reads the first text-typed block and ignores every later one. */
  lemma {:induction false} FirstTextIsFirstTextBlock(content: seq<ContentBlock>, k: int)
    requires -1 <= k < |content|
    requires k >= 0 ==> content[k].kind == TextBlock
    requires forall j :: 0 <= j < |content| && (k == -1 || j < k) ==> content[j].kind != TextBlock
    ensures FirstText(content) == if k >= 0 then content[k].text else ""
  {
    if content != [] && content[0].kind != TextBlock {
      FirstTextIsFirstTextBlock(content[1..], if k >= 0 then k - 1 else -1);
    }
  }

  /**
   * Picks the reply text from the listing (newest message first): there must
   * be a message, written by the assistant, whose first text block is not empty.
   */
  function ResponseText(messages: seq<Message>): (r: Result<string, ClientError>)
    ensures r.Ok? ==> (|messages| > 0 && messages[0].role == AssistantRole && r.value != ""
                       && r.value == FirstText(messages[0].content))
    ensures messages == [] ==> r == Err(NoMessages)
    ensures messages != [] && messages[0].role != AssistantRole ==> r == Err(UnexpectedRole(messages[0].role))
    ensures |messages| > 0 && messages[0].role == AssistantRole ==>
      r == (if FirstText(messages[0].content) == "" then Err(NoTextContent) else Ok(FirstText(messages[0].content)))
  {
    if |messages| == 0 then Err(NoMessages)
    else if messages[0].role != AssistantRole then Err(UnexpectedRole(messages[0].role))
    else
      var text := FirstText(messages[0].content);
      if text == "" then Err(NoTextContent) else Ok(text)
  }

  /** An empty first text block is an error even when a later text block has text. */
  lemma EmptyFirstTextBlockFails(m: Message, rest: seq<Message>, k: int)
    requires m.role == AssistantRole
    requires 0 <= k < |m.content| && m.content[k].kind == TextBlock && m.content[k].text == ""
    requires forall j :: 0 <= j < k ==> m.content[j].kind != TextBlock
    ensures ResponseText([m] + rest) == Err(NoTextContent)
  {
    FirstTextIsFirstTextBlock(m.content, k);
  }

  /** The reply holds an opening brace before its last closing brace. */
  predicate HasJsonMarkers(s: string) {
    0 <= IndexOf(s, '{') < LastIndexOf(s, '}')
  }

  /**
   * Cuts the reply down to the span from its first `{` to its last `}`
   * inclusive; a reply without such a pair is left as it is.
   */
  function SliceJson(s: string): (r: string)
    ensures HasJsonMarkers(s) ==> |r| >= 2 && r[0] == '{' && r[|r| - 1] == '}'
    ensures !HasJsonMarkers(s) ==> r == s
  {
    if HasJsonMarkers(s) then s[IndexOf(s, '{')..LastIndexOf(s, '}') + 1] else s
  }

  /**
   * The slice is the one brace-delimited span with no `{` before it and no `}`
   * after it: surrounding prose without those characters is dropped.
   */
  lemma SliceJsonOfWrapped(before: string, body: string, after: string)
    requires '{' !in before && '}' !in after
    requires |body| >= 2 && body[0] == '{' && body[|body| - 1] == '}'
    ensures SliceJson(before + body + after) == body
  {
    var s := before + body + after;
    var i, j := IndexOf(s, '{'), LastIndexOf(s, '}');
    assert s[|before|] == '{' && s[|before| + |body| - 1] == '}';
    assert forall k :: 0 <= k < |before| ==> s[k] == before[k];
    assert forall k :: |before| + |body| <= k < |s| ==> s[k] == after[k - |before| - |body|];
    assert i == |before| && j == |before| + |body| - 1;
    assert s[i..j + 1] == body;
  }

  /** Conversely, a reply with markers is the slice wrapped in text without `{` before and `}` after. */
  lemma SliceJsonSplits(s: string)
    requires HasJsonMarkers(s)
    ensures var i, j := IndexOf(s, '{'), LastIndexOf(s, '}');
      && s == s[..i] + SliceJson(s) + s[j + 1..]
      && '{' !in s[..i] && '}' !in s[j + 1..]
  {
    var i, j := IndexOf(s, '{'), LastIndexOf(s, '}');
    assert s == s[..i] + s[i..j + 1] + s[j + 1..];
    BeforeIndexOf(s, '{');
    AfterLastIndexOf(s, '}');
  }

  /** Slicing an already sliced reply changes nothing. */
  lemma SliceJsonIdempotent(s: string)
    ensures SliceJson(SliceJson(s)) == SliceJson(s)
  {
    if HasJsonMarkers(s) {
      var r := SliceJson(s);
      SliceJsonOfWrapped([], r, []);
      assert [] + r + [] == r;
    }
  }

  /** The start time: the parsed value, or `now` when the text is empty or does not parse. */
  function RepairStart(raw: string, parse: TimeParser, now: Timestamp): (t: Timestamp)
    ensures raw != "" && parse(raw).Some? ==> t == parse(raw).value
    ensures raw == "" || parse(raw).None? ==> t == now
  {
    if raw == "" then now
    else match parse(raw)
      case None => now
      case Some(t) => t
  }

  /** The end used when none is given: an hour after the start, or the next local midnight from a midnight start. */
  function DefaultEnd(start: Timestamp): (e: Timestamp)
    ensures e.offset == start.offset && start.utc < e.utc <= start.utc + SecondsPerDay
  {
    NextLocalMidnightSpec(start);
    var end := AddSeconds(start, SecondsPerHour);
    if IsMidnight(start) then NextLocalMidnight(start) else end
  }

  /**
   * The default end is always after the start, in the start's location: one
   * hour later, or for a midnight start exactly one day later, at midnight.
   */
  lemma DefaultEndSpec(start: Timestamp)
    ensures var e := DefaultEnd(start);
      && e.offset == start.offset
      && (!IsMidnight(start) ==> e.utc == start.utc + SecondsPerHour)
      && (IsMidnight(start) ==> (e.utc == start.utc + SecondsPerDay && IsMidnight(e)
                                 && LocalDay(e) == LocalDay(start) + 1))
  {
    NextLocalMidnightSpec(start);
  }

  /** The end time: the parsed value even if it is before the start, otherwise the default end. */
  function RepairEnd(raw: string, parse: TimeParser, start: Timestamp): (t: Timestamp)
    ensures raw != "" && parse(raw).Some? ==> t == parse(raw).value
    ensures raw == "" || parse(raw).None? ==> t == DefaultEnd(start)
  {
    if raw == "" then DefaultEnd(start)
    else match parse(raw)
      case None => DefaultEnd(start)
      case Some(t) => t
  }

  function RepairEvent(data: EventData, parse: TimeParser, now: Timestamp): (e: Event)
    ensures e.title == data.title && e.description == data.description && e.location == data.location
    ensures e.start == RepairStart(data.startTime, parse, now)
    ensures e.end == RepairEnd(data.endTime, parse, e.start)
  {
    var start := RepairStart(data.startTime, parse, now);
    Event(data.title, data.description, data.location, start, RepairEnd(data.endTime, parse, start))
  }

  /** Cut the reply to its JSON object, decode it and repair the two timestamps. */
  function ParseEvent(text: string, decode: JsonDecoder, parse: TimeParser, now: Timestamp): (r: Result<Event, ClientError>)
    ensures r.Err? <==> decode(SliceJson(text)).None?
    ensures r.Err? ==> r.error == EventParseFailed
    ensures r.Ok? ==> r.value == RepairEvent(decode(SliceJson(text)).value, parse, now)
  {
    match decode(SliceJson(text))
    case None => Err(EventParseFailed)
    case Some(data) => Ok(RepairEvent(data, parse, now))
  }

  /** What a completed run yields, given the listing of the newest message (`None`: listing failed). */
  function CompletionResult(listed: Option<seq<Message>>, decode: JsonDecoder, parse: TimeParser, now: Timestamp)
    : (r: Result<Event, ClientError>)
    ensures listed.None? ==> r == Err(MessageListFailed)
    ensures listed.Some? && ResponseText(listed.value).Err? ==> r == Err(ResponseText(listed.value).error)
    ensures r.Ok? <==>
      (listed.Some? && ResponseText(listed.value).Ok? && decode(SliceJson(ResponseText(listed.value).value)).Some?)
    ensures r.Ok? ==> r.value == RepairEvent(decode(SliceJson(ResponseText(listed.value).value)).value, parse, now)
    ensures listed.Some? && ResponseText(listed.value).Ok? && decode(SliceJson(ResponseText(listed.value).value)).None?
      ==> r == Err(EventParseFailed)
  {
    match listed
    case None => Err(MessageListFailed)
    case Some(messages) =>
      match ResponseText(messages)
      case Err(e) => Err(e)
      case Ok(text) => ParseEvent(text, decode, parse, now)
  }

  /**
   * A reply of prose around an object whose two
   * times are empty yields an event starting now and ending an hour later
   * (the next midnight when now is a midnight).
   */
  lemma EmptyTimesReply(before: string, body: string, after: string, decode: JsonDecoder, parse: TimeParser, now: Timestamp, m: Message)
    requires '{' !in before && '}' !in after
    requires |body| >= 2 && body[0] == '{' && body[|body| - 1] == '}'
    requires decode(body).Some? && decode(body).value.startTime == "" && decode(body).value.endTime == ""
    requires m.role == AssistantRole && |m.content| > 0 && m.content[0] == ContentBlock(TextBlock, before + body + after)
    ensures var r := CompletionResult(Some([m]), decode, parse, now);
      && r.Ok? && r.value.start == now
      && (!IsMidnight(now) ==> r.value.end == AddSeconds(now, SecondsPerHour))
      && (IsMidnight(now) ==> r.value.end.utc == now.utc + SecondsPerDay)
  {
    SliceJsonOfWrapped(before, body, after);
    assert before + body + after != "" by {
      assert |before + body + after| >= 2;
    }
    DefaultEndSpec(now);
  }

  // ---------------------------------------------------------------------------
  // Polling a run
  // ---------------------------------------------------------------------------

  /** The statuses that end the polling loop. */
  predicate IsDecisiveStatus(status: string) {
    status == "completed" || status == "failed" || status == "cancelled"
    || status == "expired" || status == "requires_action"
  }

  /** A poll after which the loop sleeps a second and polls again. */
  predicate KeepsPolling(p: RunPoll) {
    p.Status? && !IsDecisiveStatus(p.status)
  }

  /** What the loop returns on a poll that ends it. */
  function PollVerdict(p: RunPoll, completion: Result<Event, ClientError>): (r: Result<Event, ClientError>)
    requires !KeepsPolling(p)
    ensures r.Ok? ==> p == Status("completed")
    ensures p == Status("completed") ==> r == completion
    ensures p.Status? && p.status in {"failed", "cancelled", "expired"} ==> r == Err(RunFailed(p.status))
    ensures p == Status("requires_action") ==> r == Err(RunRequiresAction)
    ensures p == FetchFailed ==> r == Err(RunFetchFailed)
  {
    match p
    case FetchFailed => Err(RunFetchFailed)
    case Status(s) =>
      if s == "completed" then completion
      else if s == "requires_action" then Err(RunRequiresAction)
      else Err(RunFailed(s))
  }

  /** The loop either returned a result or was still polling when the observed polls ran out. */
  datatype PollOutcome = Returned(result: Result<Event, ClientError>) | StillPolling

  /** The text of the first text-typed content block, read the way the source's loop reads it. */
  method FirstTextContent(content: seq<ContentBlock>) returns (text: string)
    ensures text == FirstText(content)
  {
    text := "";
    var i := 0;
    while i < |content|
      invariant 0 <= i <= |content|
      invariant forall j :: 0 <= j < i ==> content[j].kind != TextBlock
      invariant text == ""
    {
      if content[i].kind == TextBlock {
        text := content[i].text;
        FirstTextIsFirstTextBlock(content, i);
        return;
      }
      i := i + 1;
    }
    FirstTextIsFirstTextBlock(content, -1);
  }

  /** The completed branch: list the newest message, pick its text and parse the event. */
  method HandleCompletion(listed: Option<seq<Message>>, decode: JsonDecoder, parse: TimeParser, now: Timestamp)
    returns (r: Result<Event, ClientError>)
    ensures r == CompletionResult(listed, decode, parse, now)
  {
    if listed.None? {
      return Err(MessageListFailed);
    }
    var messages := listed.value;
    if |messages| == 0 {
      return Err(NoMessages);
    }
    var newest := messages[0];
    if newest.role != AssistantRole {
      return Err(UnexpectedRole(newest.role));
    }
    var content := FirstTextContent(newest.content);
    if content == "" {
      return Err(NoTextContent);
    }
    r := ParseEvent(content, decode, parse, now);
  }

  /**
   * The polling loop over the statuses successive polls return. The first
   * poll that does not keep the loop going decides the outcome; if every
   * observed poll keeps it going, the loop is still polling.
   */
  method PollForCompletion(polls: seq<RunPoll>, listed: Option<seq<Message>>, decode: JsonDecoder, parse: TimeParser, now: Timestamp)
    returns (outcome: PollOutcome, pollCount: nat)
    ensures outcome.StillPolling? <==> forall j :: 0 <= j < |polls| ==> KeepsPolling(polls[j])
    ensures outcome.StillPolling? ==> pollCount == |polls|
    ensures outcome.Returned? ==>
      && 1 <= pollCount <= |polls|
      && (forall j :: 0 <= j < pollCount - 1 ==> KeepsPolling(polls[j]))
      && !KeepsPolling(polls[pollCount - 1])
      && outcome.result == PollVerdict(polls[pollCount - 1], CompletionResult(listed, decode, parse, now))
  {
    pollCount := 0;
    while pollCount < |polls|
      invariant 0 <= pollCount <= |polls|
      invariant forall j :: 0 <= j < pollCount ==> KeepsPolling(polls[j])
    {
      var poll := polls[pollCount];
      pollCount := pollCount + 1;
      match poll {
        case FetchFailed =>
          return Returned(Err(RunFetchFailed)), pollCount;
        case Status(status) =>
          if status == "completed" {
            var r := HandleCompletion(listed, decode, parse, now);
            return Returned(r), pollCount;
          } else if status == "failed" || status == "cancelled" || status == "expired" {
            return Returned(Err(RunFailed(status))), pollCount;
          } else if status == "requires_action" {
            return Returned(Err(RunRequiresAction)), pollCount;
          }
      }
    }
    outcome := StillPolling;
  }

  // ---------------------------------------------------------------------------
  // The client object
  // ---------------------------------------------------------------------------

  class Client {
    var assistantID: string
    const assistantName: string
    var threadCache: map<string, string>

    constructor (configuredAssistantID: string)
      ensures assistantID == configuredAssistantID && assistantName == DefaultAssistantName
      ensures threadCache == map[]
    {
      assistantID := configuredAssistantID;
      assistantName := DefaultAssistantName;
      threadCache := map[];
    }

    /**
     * Returns the user's thread: the cached one while `threadExists` says the
     * service still has it, otherwise the `created` one, which is cached.
     */
    method GetOrCreateThread(user: string, threadExists: string -> bool, created: Option<string>)
      returns (r: Result<string, ClientError>)
      modifies this`threadCache
      ensures (r, threadCache) == ResolveThread(old(threadCache), user, threadExists, created)
    {
      if user in threadCache {
        var threadID := threadCache[user];
        if threadExists(threadID) {
          return Ok(threadID);
        }
      }
      if created.None? {
        return Err(ThreadCreateFailed);
      }
      threadCache := threadCache[user := created.value];
      r := Ok(created.value);
    }

    /** Forgets the user's thread; never fails. */
    method ClearThreadForUser(user: string) returns (r: Outcome<ClientError>)
      modifies this`threadCache
      ensures r == Pass && threadCache == EvictThread(old(threadCache), user)
    {
      if user !in threadCache {
        return Pass;
      }
      threadCache := threadCache - {user};
      r := Pass;
    }

    /**
     * Keeps a configured id the service knows; otherwise clears it and adopts
     * the first listed assistant named `assistantName`, leaving "" when there
     * is none. A failed listing is an error.
     */
    method InitializeAssistant(assistantExists: string -> bool, listed: Option<seq<Assistant>>)
      returns (r: Outcome<ClientError>)
      modifies this`assistantID
      ensures old(assistantID) != "" && assistantExists(old(assistantID)) ==> r == Pass && assistantID == old(assistantID)
      ensures !(old(assistantID) != "" && assistantExists(old(assistantID))) ==>
        && (listed.None? ==> r == Fail(AssistantListFailed) && assistantID == "")
        && (listed.Some? ==> r == Pass && assistantID == AdoptedId(listed.value, assistantName))
    {
      if assistantID != "" {
        if assistantExists(assistantID) {
          return Pass;
        }
        assistantID := "";
      }
      if listed.None? {
        return Fail(AssistantListFailed);
      }
      var assistants := listed.value;
      for i := 0 to |assistants|
        invariant assistantID == ""
        invariant forall j :: 0 <= j < i ==> assistants[j].name != assistantName
      {
        if assistants[i].name == assistantName {
          assistantID := assistants[i].id;
          return Pass;
        }
      }
      r := Pass;
    }
  }
}
