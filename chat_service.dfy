/** The chat service of internal/chat/chat_service.go: a per-session cache
    of stored messages in front of the database, and the call to the
    language model whose streamed reply is forwarded chunk by chunk and
    then saved whole.

    The database and the model are oracles handed to the methods: `query`
    is what the history query returns, `insert` the error (if any) of the
    insert statement, `llm` what the model client does. */
module ChatService {
  import opened Common
  import opened Messages

  /** What the language model does for one call. */
  datatype LlmRun =
    | ClientFailed(clientError: string)
      // `ollama.NewChat` returned an error
    | Streamed(chunks: seq<string>, callError: Option<string>)
      // the chunks handed to the streaming callback, then `llm.Call`'s error

  /** A session's cached messages, empty for a session never cached. */
  function Cached(cache: map<string, seq<Message>>, sessionID: string): seq<Message> {
    if sessionID in cache then cache[sessionID] else []
  }

  /** What the history query yields on a cache miss: its own error, else
      the first row that fails to scan, else the error `rows.Err()`
      reports, else every row in order. */
  function Loaded(query: Result<Rows, string>): Result<seq<Message>, string> {
    match query
    case Err(e) => Err(e)
    case Ok(rows) =>
      if !AllScanned(rows.scans) then Err(FirstScanError(rows.scans))
      else if rows.err.Some? then Err(rows.err.value)
      else Ok(ScannedMessages(rows.scans))
  }

  /** The history `RetrieveHistory` returns for a session (an error reads as
      an empty history, as `getChatHistories` ignores it). */
  function HistoryFor(cache: map<string, seq<Message>>, sessionID: string, query: Result<Rows, string>): seq<Message> {
    if sessionID in cache then cache[sessionID]
    else match Loaded(query) case Ok(messages) => messages case Err(_) => []
  }

  /** The cache after `RetrieveHistory`: a miss that loads caches the rows. */
  function CacheAfterRetrieval(cache: map<string, seq<Message>>, sessionID: string, query: Result<Rows, string>): map<string, seq<Message>> {
    if sessionID !in cache && Loaded(query).Ok? then cache[sessionID := Loaded(query).value] else cache
  }

  /** Once a retrieval has answered from the cache or loaded the session,
      the session is cached: the next retrieval is a hit, whatever the
      database would say, returns the same history and changes nothing. A
      retrieval that fails leaves the session uncached, so the next one asks
      the database again. */
  lemma RetrievalSettles(cache: map<string, seq<Message>>, sessionID: string, query: Result<Rows, string>, next: Result<Rows, string>)
    ensures var after := CacheAfterRetrieval(cache, sessionID, query);
      && (sessionID in after <==> sessionID in cache || Loaded(query).Ok?)
      && (sessionID in after ==>
            && HistoryFor(after, sessionID, next) == HistoryFor(cache, sessionID, query)
            && CacheAfterRetrieval(after, sessionID, next) == after)
      && (forall other :: other != sessionID ==> Cached(after, other) == Cached(cache, other))
  {
  }

  class ChatService {
    /** `historyMap`; the `historyLock` guarding it is not modelled. */
    var historyMap: map<string, seq<Message>>

    /** `NewChatService`: an empty cache. */
    constructor ()
      ensures historyMap == map[]
    {
      historyMap := map[];
    }

    /** `cacheHistory`: the session's messages (none when it was absent)
        followed by the new ones; every other session keeps its entry.
        Even no new messages leave the session present. */
    method CacheHistory(sessionID: string, messages: seq<Message>)
      modifies this
      ensures historyMap == old(historyMap)[sessionID := Cached(old(historyMap), sessionID) + messages]
    {
      if sessionID !in historyMap {
        historyMap := historyMap[sessionID := []];
      }
      historyMap := historyMap[sessionID := historyMap[sessionID] + messages];
    }

    /** `getHistoryFromCache`: found exactly when the session is a key, with
        that key's messages. */
    method GetHistoryFromCache(sessionID: string) returns (history: seq<Message>, ok: bool)
      ensures ok <==> sessionID in historyMap
      ensures history == Cached(historyMap, sessionID)
    {
      ok := sessionID in historyMap;
      history := if ok then historyMap[sessionID] else [];
    }

    /** `RetrieveHistory`: a cached session is answered from the cache
        without looking at the database; a miss runs the query, and only a
        query that succeeds caches its rows (so even no rows make the next
        call a hit); any error leaves the cache as it was. */
    method RetrieveHistory(sessionID: string, query: Result<Rows, string>) returns (r: Result<seq<Message>, string>)
      modifies this
      ensures sessionID in old(historyMap) ==> r == Ok(old(historyMap)[sessionID]) && historyMap == old(historyMap)
      ensures sessionID !in old(historyMap) ==> r == Loaded(query)
      ensures historyMap == CacheAfterRetrieval(old(historyMap), sessionID, query)
    {
      var history, ok := GetHistoryFromCache(sessionID);
      if ok {
        return Ok(history);
      }
      if query.Err? {
        return Err(query.error);
      }
      var rows := query.value;
      var scanned := ReadRows(rows.scans);
      if scanned.Err? {
        return scanned;
      }
      if rows.err.Some? {
        return Err(rows.err.value);
      }
      assert Cached(historyMap, sessionID) + scanned.value == scanned.value;
      CacheHistory(sessionID, scanned.value);
      r := scanned;
    }

    /** `SaveMessage`: the message joins its session's entry only when the
        insert succeeds; an insert error is returned and changes nothing. */
    method SaveMessage(msg: Message, insert: Option<string>) returns (r: Result<Message, string>)
      modifies this
      ensures insert.Some? ==> r == Err(insert.value) && historyMap == old(historyMap)
      ensures insert.None? ==>
        r == Ok(msg) && historyMap == old(historyMap)[msg.sessionID := Cached(old(historyMap), msg.sessionID) + [msg]]
    {
      if insert.Some? {
        return Err(insert.value);
      }
      CacheHistory(msg.sessionID, [msg]);
      r := Ok(msg);
    }

    /** `getChatHistories`: the session's history (empty on an error) as
        chat messages, in order. */
    method GetChatHistories(sessionID: string, query: Result<Rows, string>) returns (chats: seq<ChatMessage>)
      modifies this
      ensures ChatHistoryOf(HistoryFor(old(historyMap), sessionID, query), chats)
      ensures historyMap == CacheAfterRetrieval(old(historyMap), sessionID, query)
    {
      var history := RetrieveHistory(sessionID, query);
      var messages := if history.Ok? then history.value else [];
      chats := ToChatMessages(messages);
    }

    /** `ProcessMessageWithLLM`. The prompt is the session's history followed
        by the user's text. Every chunk the model streams is forwarded, in
        order, while the reply is assembled; the reply's text is all chunks
        concatenated. A model error is returned after the chunks already
        forwarded and saves nothing; otherwise the reply is saved, and a
        save error is returned instead of the reply. */
    method ProcessMessageWithLLM(msg: Message, llm: LlmRun, query: Result<Rows, string>, insert: Option<string>, now: int)
      returns (r: Result<Message, string>, prompt: seq<ChatMessage>, forwarded: seq<string>)
      modifies this
      ensures llm.ClientFailed? ==>
        r == Err(llm.clientError) && prompt == [] && forwarded == [] && historyMap == old(historyMap)
      ensures llm.Streamed? ==>
        && forwarded == llm.chunks
        && |prompt| > 0 && prompt[|prompt| - 1] == Human(msg.text)
        && ChatHistoryOf(HistoryFor(old(historyMap), msg.sessionID, query), prompt[..|prompt| - 1])
      ensures llm.Streamed? ==>
        var cache := CacheAfterRetrieval(old(historyMap), msg.sessionID, query);
        var reply := Message("", msg.sessionID, AISender, Concat(llm.chunks), now);
        if llm.callError.Some? then r == Err(llm.callError.value) && historyMap == cache
        else if insert.Some? then r == Err(insert.value) && historyMap == cache
        else r == Ok(reply) && historyMap == cache[msg.sessionID := Cached(cache, msg.sessionID) + [reply]]
    {
      if llm.ClientFailed? {
        return Err(llm.clientError), [], [];
      }
      var history := GetChatHistories(msg.sessionID, query);
      prompt := history + [Human(msg.text)];
      assert prompt[..|prompt| - 1] == history;
      var responseBuffer := "";
      forwarded := [];
      for i := 0 to |llm.chunks|
        invariant forwarded == llm.chunks[..i]
        invariant responseBuffer == Concat(llm.chunks[..i])
      {
        forwarded := forwarded + [llm.chunks[i]];
        assert llm.chunks[..i + 1][..i] == llm.chunks[..i];
        responseBuffer := responseBuffer + llm.chunks[i];
      }
      assert llm.chunks[..|llm.chunks|] == llm.chunks;
      if llm.callError.Some? {
        return Err(llm.callError.value), prompt, forwarded;
      }
      var reply := Message("", msg.sessionID, AISender, responseBuffer, now);
      r := SaveMessage(reply, insert);
    }
  }
}
