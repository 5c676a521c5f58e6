/** The chat component of client/src/Chat.tsx: the message list, the input
    field, the loading flag, the streamed reply shown under the list, and
    one `processStream` run reading the reply of the last send.

    The network is a set of replies handed to the methods: `Send` returns
    the request it would issue, `Respond` receives what `fetch` produced,
    `Feed` receives one decoded chunk from `reader.read()`, `EndStream` is
    the reader reporting `done` (or failing), and `ApplyHistory` receives
    the reply to a history request. */
module ChatClient {
  import opened Common
  import opened EventStream

  /** `IMessage`; the `Date` timestamp is not modelled. */
  datatype Message = Message(sessionID: string, sender: string, text: string)

  /** What `fetch` on the send endpoint produced. */
  datatype SendReply =
    | FetchFailed
      // the request or `response.json()` threw
    | Response(ok: bool, contentType: Option<string>, hasBody: bool)
      // `hasBody`: `response.body?.getReader()` gave a reader

  /** What `fetch` on the history endpoint produced: `history` is missing
      when the body has no (or a falsy) `history` field. */
  datatype HistoryFetch =
    | HistoryUnreachable
    | HistoryResponse(ok: bool, history: Option<seq<Message>>)

  // ---------------------------------------------------------------------
  // String.prototype.trim
  // ---------------------------------------------------------------------

  /** The characters `trim()` removes: ECMAScript white space (tab, vertical
      tab, form feed, byte order mark and the space separators) and line
      terminators. */
  predicate IsWhitespace(c: char) {
    || c == '\t' || c == '\U{000B}' || c == '\U{000C}' || c == '\U{FEFF}'
    || c == ' ' || c == '\U{00A0}' || c == '\U{1680}' || ('\U{2000}' <= c <= '\U{200A}')
    || c == '\U{202F}' || c == '\U{205F}' || c == '\U{3000}'
    || IsLineTerminator(c)
  }

  function TrimStart(s: string): string
    decreases |s|
  {
    if s != [] && IsWhitespace(s[0]) then TrimStart(s[1..]) else s
  }

  function TrimEnd(s: string): string
    decreases |s|
  {
    if s != [] && IsWhitespace(s[|s| - 1]) then TrimEnd(s[..|s| - 1]) else s
  }

  /** `s.trim()` */
  function Trim(s: string): string {
    TrimEnd(TrimStart(s))
  }

  predicate Blank(s: string) {
    forall i :: 0 <= i < |s| ==> IsWhitespace(s[i])
  }

  lemma {:induction false} TrimStartEmpty(s: string)
    ensures TrimStart(s) == "" <==> Blank(s)
    ensures TrimStart(s) != "" ==> !IsWhitespace(TrimStart(s)[0])
    decreases |s|
  {
    if s != [] && IsWhitespace(s[0]) {
      TrimStartEmpty(s[1..]);
      assert Blank(s) <==> Blank(s[1..]) by {
        if Blank(s[1..]) {
          forall i | 0 <= i < |s| ensures IsWhitespace(s[i]) {
            if i > 0 { assert s[i] == s[1..][i - 1]; }
          }
        }
      }
    }
  }

  lemma {:induction false} TrimEndEmpty(s: string)
    requires s == [] || !IsWhitespace(s[0])
    ensures TrimEnd(s) == "" <==> s == ""
    decreases |s|
  {
    if s != [] && IsWhitespace(s[|s| - 1]) {
      assert |s| > 1;
      TrimEndEmpty(s[..|s| - 1]);
    }
  }

  /** `!text.trim()` holds exactly when the text is empty or all white space. */
  lemma TrimEmptyIffBlank(s: string)
    ensures Trim(s) == "" <==> Blank(s)
  {
    TrimStartEmpty(s);
    TrimEndEmpty(TrimStart(s));
  }

  /** `contentType.includes(part)` */
  predicate Includes(contentType: string, part: string) {
    exists i | 0 <= i <= |contentType| - |part| :: OccursAt(contentType, part, i)
  }

  predicate OccursAt(s: string, part: string, i: int) {
    0 <= i <= |s| - |part| && s[i..i + |part|] == part
  }

  /** The branch test of `handleSend`: the reply is read as an event stream
      whenever its content type mentions it, whatever its status. */
  predicate IsEventStream(reply: SendReply) {
    reply.Response? && reply.contentType.Some? && Includes(reply.contentType.value, "text/event-stream")
  }

  class ChatView {
    /** `messages` state */
    var messages: seq<Message>
    /** `newMessage` state, bound to the text field */
    var input: string
    /** `isLoading` state */
    var isLoading: bool
    /** `combinedMessages` state: the streamed reply shown under the list */
    var live: string
    /** a `processStream` loop is running */
    var reading: bool
    /** `completeMessage` of the running loop */
    var buffer: string
    /** `combinedMessage` of the running loop */
    var combined: string
    /** `JSON.parse(data).text` as `+=` converts it; None when either throws */
    const jsonText: string -> Option<string>

    /** The payloads parsed by the running loop. */
    ghost var payloads: seq<string>
    /** Everything the running loop has read, in order. */
    ghost var received: string
    /** The shown reply when the running loop started. */
    ghost var liveAtStart: string
    /** History requests issued so far. */
    ghost var historyRequests: nat

    /** While reading, the loop's variables are exactly what the text
        received so far determines, however it arrived in chunks. */
    ghost predicate Valid()
      reads this
    {
      reading ==> StreamState(buffer, combined, live, payloads, true) == Decoded(received, liveAtStart, jsonText)
    }

    /** Mounting the component: empty state, then the history request of
        the `useEffect` hook. */
    constructor (jsonText: string -> Option<string>)
      ensures Valid()
      ensures messages == [] && input == "" && !isLoading && live == "" && !reading
      ensures this.jsonText == jsonText && historyRequests == 1
    {
      messages, input, isLoading, live := [], "", false, "";
      reading, buffer, combined := false, "", "";
      this.jsonText := jsonText;
      payloads, received, liveAtStart := [], "", "";
      historyRequests := 1;
    }

    /** The text field's `onChange`. */
    method Type(text: string)
      modifies this`input
      ensures input == text
    {
      input := text;
    }

    /** `handleSend` up to issuing the request: a blank input changes nothing
        and sends nothing; otherwise the user's message is appended before
        any reply, the field is cleared and the request carries the text. */
    method Send() returns (request: Option<string>)
      requires Valid()
      modifies this`messages, this`input, this`isLoading
      ensures Valid()
      ensures Trim(old(input)) == "" ==>
        request == None && messages == old(messages) && input == old(input) && isLoading == old(isLoading)
      ensures Trim(old(input)) != "" ==>
        && request == Some(old(input))
        && messages == old(messages) + [Message("", "human", old(input))]
        && input == "" && isLoading
    {
      if Trim(input) == "" {
        return None;
      }
      isLoading := true;
      messages := messages + [Message("", "human", input)];
      request := Some(input);
      input := "";
    }

    /** The rest of `handleSend` once `fetch` has answered: an event stream
        with a body starts a fresh loop (empty buffer and reply); any other
        outcome is only logged. The optimistic message is never removed and
        the loading flag drops before the loop has read anything. */
    method Respond(reply: SendReply)
      requires Valid() && !reading
      modifies this`reading, this`buffer, this`combined, this`payloads, this`received, this`liveAtStart, this`isLoading
      ensures Valid()
      ensures reading == (IsEventStream(reply) && reply.hasBody)
      ensures reading ==> buffer == "" && combined == "" && payloads == [] && received == "" && liveAtStart == live
      ensures !isLoading
    {
      if IsEventStream(reply) && reply.hasBody {
        reading, buffer, combined := true, "", "";
        payloads, received, liveAtStart := [], "", live;
        StartIsDecodedEmpty(live, jsonText);
      }
      isLoading := false;
    }

    /** One pass of the `while` loop of `processStream` with a chunk: the
        chunk joins the buffer, the buffer keeps the text after the last
        blank line, and the complete events are decoded in order. A payload
        that does not parse rejects the loop: later events and chunks are
        never decoded, and the `finally` handler requests the history. */
    method Feed(chunk: string) returns (ok: bool)
      requires Valid() && reading
      modifies this`buffer, this`combined, this`live, this`payloads, this`received, this`reading, this`historyRequests
      ensures Valid()
      ensures StreamState(buffer, combined, live, payloads, ok)
           == EventStream.Feed(old(StreamState(buffer, combined, live, payloads, true)), chunk, jsonText)
      ensures reading == ok && received == old(received) + chunk
      ensures historyRequests == old(historyRequests) + (if ok then 0 else 1)
    {
      FeedExtends(received, chunk, liveAtStart, jsonText);
      ok := Read(chunk);
      received := received + chunk;
      if !ok {
        reading := false;
        historyRequests := historyRequests + 1;
      }
    }

    /** The loop's variables after one pass with a chunk. */
    method Read(chunk: string) returns (ok: bool)
      modifies this`buffer, this`combined, this`live, this`payloads
      ensures StreamState(buffer, combined, live, payloads, ok)
           == EventStream.Feed(old(StreamState(buffer, combined, live, payloads, true)), chunk, jsonText)
    {
      var events := TakeEvents(chunk);
      ok := DecodeAll(events);
    }

    /** `completeMessage += chunk`, then the split: the complete events are
        returned and the unfinished tail stays in the buffer. */
    method TakeEvents(chunk: string) returns (events: seq<string>)
      modifies this`buffer
      ensures events == Frames(old(buffer) + chunk) && buffer == Rest(old(buffer) + chunk)
    {
      buffer := buffer + chunk;
      var pieces := Split(buffer);
      events := pieces[..|pieces| - 1];
      buffer := pieces[|pieces| - 1];
    }

    /** The `for (const event of events)` loop: each event's payload line is
        parsed and its text appended and shown, until a parse throws. */
    method DecodeAll(events: seq<string>) returns (ok: bool)
      modifies this`combined, this`live, this`payloads
      ensures var d := DecodeEvents(events, jsonText);
        && ok == d.ok
        && combined == old(combined) + d.text
        && payloads == old(payloads) + d.payloads
        && live == if d.payloads == [] then old(live) else combined
    {
      ok := true;
      ghost var d := Decoding([], "", true);
      assert combined + d.text == combined;
      assert payloads + d.payloads == payloads;
      var i := 0;
      while i < |events| && ok
        invariant 0 <= i <= |events|
        invariant d == DecodeEvents(events[..i], jsonText)
        invariant ok == d.ok
        invariant combined == old(combined) + d.text
        invariant payloads == old(payloads) + d.payloads
        invariant live == if d.payloads == [] then old(live) else combined
      {
        DecodeNext(events, i, jsonText);
        var data := DataLine(events[i]);
        if data.Some? {
          var text := jsonText(data.value);
          if text.None? {
            ok := false;
            d := Decoding(d.payloads, d.text, false);
          } else {
            AppendAssoc(old(combined), d.text, text.value);
            AppendAssoc(old(payloads), d.payloads, [data.value]);
            combined := combined + text.value;
            live := combined;
            payloads := payloads + [data.value];
            d := Decoding(d.payloads + [data.value], d.text + text.value, true);
          }
        }
        i := i + 1;
      }
      if ok {
        assert events[..i] == events;
      } else {
        DecodeStops(events, i, jsonText);
      }
    }

    /** `reader.read()` reports `done` (or throws): the loop ends, the text
        still in the buffer is never decoded, and the `finally` handler
        requests the history. */
    method EndStream()
      requires Valid() && reading
      modifies this`reading, this`historyRequests
      ensures Valid() && !reading
      ensures historyRequests == old(historyRequests) + 1
    {
      reading := false;
      historyRequests := historyRequests + 1;
    }

    /** `fetchChatHistory` once its reply arrives: only an ok reply replaces
        the list, by its `history` or by the empty list; every failure keeps
        the list as it is. */
    method ApplyHistory(reply: HistoryFetch)
      requires Valid()
      modifies this`messages
      ensures Valid()
      ensures messages == if reply.HistoryResponse? && reply.ok then reply.history.GetOr([]) else old(messages)
    {
      if reply.HistoryResponse? && reply.ok {
        messages := reply.history.GetOr([]);
      }
    }
  }
}
