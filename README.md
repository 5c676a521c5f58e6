# xbot chat: streamed replies and history caches

xbot is a chat application: a React client (`client/src/Chat.tsx`) sends the
user's text to a Go server, the server asks a language model and streams the
reply back as server-sent events, and both sides keep the conversation
history. This project models the three small cores that carry logic:

- **The client's send handler and stream decoder** (modules `EventStream` and
  `ChatClient`). `handleSend` ignores blank input, appends the user's message
  optimistically and issues the request. `processStream` appends each chunk
  to a residual buffer, splits it on blank lines, keeps the unfinished tail,
  takes the first `data: ` line of every complete event, hands it to
  `JSON.parse` and appends the `.text` field to the reply. The pure
  definitions (what one chunk does, what the whole received text determines)
  live in `EventStream`; the class `ChatClient.ChatView` holds the
  component's state and runs them step by step. `JSON.parse(data).text` is a
  partial function passed in (`jsonText`, `None` when it throws).
- **The server's frame writers** (module `Sse`): `SendSse` in
  `internal/sse/sse.go` and the older `sendSse` in `internal/sse.go`, as the
  list of calls they make on the gin context. Module `RoundTrip` proves that
  whatever chunks the frames arrive in, the client decoder recovers exactly
  the payloads sent, in order.
- **The history caches**: `ChatService.ChatService` (the per-session map of
  `internal/chat/chat_service.go`, with cache-first retrieval, append on save,
  the mapping to the model's chat messages, and the streamed model call) and
  `Database.Store` (the package globals of `internal/database.go`: the lazily
  opened connection and the process-wide history cache). The database and the
  model are oracles: their answers are parameters (`Result`/`Option` values),
  and `log.Fatal` is recorded as an `exited` flag. Module `Messages` holds the
  message records and the two loops both stores share.

The model follows the code in places where one might expect otherwise:

- A payload that `JSON.parse` rejects does not skip that one event: the
  exception leaves `processStream`, so no later event or chunk is decoded and
  the history is fetched again (`Feed` returns false, `EventStream.Feed`
  sets `ok` to false).
- There is no guard against a second send while a reply streams; the only
  guard is the blank-input test.
- A payload must hold no line terminator at all (not only no blank line) to
  come through the client intact: `(.*)` stops at the first newline, carriage
  return, U+2028 or U+2029. `json.Marshal` escapes all four, so real frames
  qualify; `RoundTrip.NewlineInPayloadTruncates` shows what happens otherwise.

## Model

| member | source | states |
|---|---|---|
| EventStream.Split | client/src/Chat.tsx:120 | `split("\n\n")`, never empty; JoinSplit and SplitLeftmost together characterise it |
| EventStream.JoinSplit | client/src/Chat.tsx:120 | splitting on `"\n\n"` loses nothing: joining the pieces back with the separator gives the buffer |
| EventStream.SplitLeftmost | client/src/Chat.tsx:120 | the split is leftmost and non-overlapping: no piece contains a blank line and no piece but the last ends with a newline |
| EventStream.SplitWhole | client/src/Chat.tsx:120-121 | text without a blank line is a single piece, so it stays in the buffer whole |
| EventStream.SplitAppend | client/src/Chat.tsx:118-120 | splitting a longer text keeps every complete piece of the shorter one and only re-splits its tail |
| EventStream.RestIsUnfinishedTail | client/src/Chat.tsx:118-121 | after a chunk the buffer holds no blank line; it is the whole text when no event completed, else exactly the text after the last separator |
| EventStream.FramesAppend | client/src/Chat.tsx:116-123 | the complete events of a text and more are those of the text followed by those of its tail plus the more, and the tail is the tail of that |
| EventStream.DataLine | client/src/Chat.tsx:124-126 | the capture of `/^data: (.*)$/m`, which holds no line terminator and is shorter than the event; DataLineIsFirstMatch states which line it is taken from |
| EventStream.DataLineIsFirstMatch | client/src/Chat.tsx:124-126 | an event with no line starting `data: ` yields nothing; otherwise the payload is the rest of the first such line, up to a line terminator |
| EventStream.DecodeEvents | client/src/Chat.tsx:123-135 | the event loop as a left fold, at most one payload per event; DecodeMeaning and DecodeAppend state what it yields |
| EventStream.DecodeMeaning | client/src/Chat.tsx:123-135 | decoding appends the texts of exactly the parsed payloads in arrival order; it stops at the first payload that does not parse, and only then; when it completes it has taken every event's payload, and when it stops it keeps exactly the payloads (and their texts) of the events before the first failing one |
| EventStream.DecodeAppend | client/src/Chat.tsx:123-135 | decoding two runs of events is decoding the first and, only if it did not fail, the second after it |
| EventStream.Feed | client/src/Chat.tsx:116-135 | one read only appends to the payloads and the reply, and leaves a buffer without a blank line; FeedExtends states the state it reaches |
| EventStream.Run | client/src/Chat.tsx:111-136 | the reads of one turn, stopping after a failure, with the buffer never holding a blank line; RunIsDecodedConcat states the state it ends in |
| EventStream.FeedExtends | client/src/Chat.tsx:116-135 | one chunk moves the state determined by the text received so far to the state determined by that text plus the chunk |
| EventStream.RunIsDecodedConcat | client/src/Chat.tsx:109-136 | reading any list of chunks ends in the state determined by their concatenation (buffer included while still reading) |
| EventStream.ChunkBoundaryInvariance | client/src/Chat.tsx:116-135 | two cuts of the same text into chunks produce the same payloads, reply, shown text and outcome |
| EventStream.NoPartialEmission | client/src/Chat.tsx:118-123 | text that completes no event only grows the buffer and decodes nothing |
| ChatClient.TrimEmptyIffBlank | client/src/Chat.tsx:75 | `trim()` is empty exactly when every character is white space or a line terminator |
| ChatClient.ChatView.constructor | client/src/Chat.tsx:33-69 | the component mounts with no messages, empty input, not loading, no shown reply, and issues one history request |
| ChatClient.ChatView.Type | client/src/Chat.tsx:275 | the input field holds what was typed |
| ChatClient.ChatView.Send | client/src/Chat.tsx:73-100 | blank input changes nothing and sends nothing; otherwise the user's message `{"", "human", text}` is appended, the input is cleared, loading is set, and the request carries the text |
| ChatClient.ChatView.Respond | client/src/Chat.tsx:102-161 | a reply whose content type mentions `text/event-stream` and has a body starts a fresh decoder; every other outcome keeps the optimistic message; loading drops |
| ChatClient.ChatView.Feed | client/src/Chat.tsx:111-136 | one read is `EventStream.Feed` on the loop's variables, the state stays the one the received text determines, and a parse failure ends the loop and requests the history |
| ChatClient.ChatView.Read | client/src/Chat.tsx:116-135 | one pass with a chunk leaves the loop's buffer, reply, shown text and payloads exactly as `EventStream.Feed` gives them |
| ChatClient.ChatView.TakeEvents | client/src/Chat.tsx:118-121 | the chunk joins the buffer; the complete events are returned and the unfinished tail is kept, as `Frames` and `Rest` give them |
| ChatClient.ChatView.DecodeAll | client/src/Chat.tsx:123-135 | the event loop appends to the reply and shows it exactly as `EventStream.DecodeEvents` says, stopping at the first parse failure |
| ChatClient.ChatView.EndStream | client/src/Chat.tsx:112-114 | at `done` the loop ends without decoding the buffer, and the history is requested |
| ChatClient.ChatView.ApplyHistory | client/src/Chat.tsx:46-59 | only an ok history reply replaces the messages, by its `history` or by the empty list |
| Messages.ToChatMessages | internal/chat/chat_service.go:108-115 | the chat history keeps length, order and texts; sender `"human"` becomes a Human message and any other sender an AI message |
| Messages.ReadRows | internal/chat/chat_service.go:68-75 | rows are read in order; the first row that fails to scan ends the loop with its error |
| ChatService.RetrievalSettles | internal/chat/chat_service.go:50-85 | once a session is answered or loaded it stays cached and the next retrieval returns the same history without the database; a failed load leaves it uncached; other sessions are untouched |
| ChatService.ChatService.constructor | internal/chat/chat_service.go:22-27 | the cache starts empty |
| ChatService.ChatService.CacheHistory | internal/chat/chat_service.go:30-37 | the session's entry becomes its old messages (none if absent) followed by the new ones; other sessions are unchanged |
| ChatService.ChatService.GetHistoryFromCache | internal/chat/chat_service.go:40-45 | found exactly when the session is a key, with that key's messages |
| ChatService.ChatService.RetrieveHistory | internal/chat/chat_service.go:48-86 | a cached session is answered from the cache with no change; a miss returns the query, scan or rows error with the cache unchanged, or the rows in order, cached even when there are none |
| ChatService.ChatService.SaveMessage | internal/chat/chat_service.go:89-103 | an insert error is returned and changes nothing; otherwise the message is appended to its session's entry and returned |
| ChatService.ChatService.GetChatHistories | internal/chat/chat_service.go:106-116 | the session's history, empty on an error, mapped to chat messages in order |
| ChatService.ChatService.ProcessMessageWithLLM | internal/chat/chat_service.go:119-163 | the prompt is the history then the user's text; every chunk is forwarded once, in order; a model error returns it and saves nothing; otherwise the reply's text is all chunks concatenated and it is saved, a save error being returned instead |
| Database.GetDBIdempotent | internal/database.go:44-50 | once `GetDB` has returned a connection, calling it again changes nothing and returns the same connection |
| Database.Store.constructor | internal/database.go:11-12 | the process starts with no connection and an empty cache |
| Database.Store.GetDB | internal/database.go:44-50 | the first call initialises and later calls return the stored connection; initialisation happens at most once |
| Database.Store.InitDB | internal/database.go:14-42 | open and schema failures exit before `db` is set; `db` is set before the history loads, so the nested `GetDB` does not initialise again; a load failure exits with the cache cleared; otherwise the cache holds the stored history |
| Database.Store.RetrieveHistoryFromDB | internal/database.go:55-72 | the query's error, else the first scan error, else every row in order; `rows.Err()` is not consulted |
| Database.Store.RetrieveHistory | internal/database.go:75-78 | the cache itself, never an error |
| Database.Store.SaveMessage | internal/database.go:81-92 | a `Prepare` error is returned with the cache unchanged; once prepared the message is appended even when `Exec` fails, and `Exec`'s error is returned |
| Database.Store.GetChatHistories | internal/database.go:94-104 | the cache mapped to chat messages, keeping length and order, `"human"` to Human and any other sender to AI |
| Sse.SendSse | internal/sse/sse.go:12-27 | the calls `SendSse` makes on the gin context, in order; SendSseWritesOneFrame states what they do |
| Sse.SendSseBare | internal/sse.go:12-23 | the calls `sendSse` makes, in order; BareIsSendSseWithoutHeaders relates them to `SendSse`'s |
| Sse.SendSseWritesOneFrame | internal/sse/sse.go:12-27 | with a marshalled payload it makes exactly five calls and no abort: the three stream headers first, then the write of exactly `"data: " + json + "\n\n"`, then one flush at the end; a marshalling error makes the single call abort-with-500, so nothing is written, flushed or set |
| Sse.BareIsSendSseWithoutHeaders | internal/sse.go:12-23 | the older writer makes exactly the calls of `SendSse` minus the header updates: the same frame and flush, or the same abort, and no header is touched |
| RoundTrip.ResponsesWrite | internal/sse/sse.go:24-26 | a sequence of sends writes the concatenation of their frames and flushes once per payload |
| RoundTrip.SplitEncoded | internal/sse/sse.go:24 | the body of a sequence of frames splits on blank lines into one event per payload and an empty tail |
| RoundTrip.DataLineOfEvent | client/src/Chat.tsx:124-126 | the data line of a frame holding no line terminator is its payload |
| RoundTrip.RoundTrip | client/src/Chat.tsx:116-135 | however the frames' body is cut into chunks, the client parses exactly the payloads sent, in order, leaves an empty buffer, and its reply is the concatenation of their texts |
| RoundTrip.NewlineInPayloadTruncates | client/src/Chat.tsx:124 | a payload holding any line terminator (newline, carriage return, U+2028, U+2029) is read back as the part before the first one; everything after it is lost |

## Left out

- Rendering: the JSX of `client/src/Chat.tsx`, the `scrollToBottom` timers, and the other client components.
- The network and byte decoding: `fetch`, `getReader()` and `TextDecoder` are replaced by replies and already decoded chunks handed to the methods; `JSON.parse` is the `jsonText` parameter; `json.Marshal` is its outcome passed to `Sse.SendSse`.
- Logging: the `console.log` and `console.error` calls of `client/src/Chat.tsx` (lines 58, 142, 145, 158) and the `log.Printf` of both frame writers (line 15 of `internal/sse/sse.go` and of `internal/sse.go`) have no effect on state and are not modelled.
- Timestamps and identifiers: `new Date()` is not modelled on the client; `time.Now()` is the `now` parameter of `ProcessMessageWithLLM`.
- ChatClient.ChatView.Respond: requires no stream to be running; a second send while one streams (possible in the component, where two `processStream` loops would share `combinedMessages`) is not modelled.
- ChatClient.ChatView.Respond: `setIsLoading(false)` runs before the unawaited stream is read; the model drops it at the response, which is what the code does, without modelling the interleaving of later reads with other events.
- The text shown under the list (`combinedMessages`) is never reset between turns in the code, and the model keeps that: a new turn shows the previous reply until its first payload parses.
- `historyLock` in `internal/chat/chat_service.go`: the cache is modelled sequentially.
- Go slice aliasing: the slices returned and cached by `RetrieveHistory` and `retrieveHistory` share storage in Go; the model uses values.
- The SQL statements and sqlite setup, and the language model client: the query rows, insert, prepare, exec, open and schema outcomes are parameters or fields of `Database.Driver`; `ollama.NewChat` failing is `ClientFailed`.
- Database.Store.GetDB, Database.Store.InitDB, Database.Store.RetrieveHistoryFromDB, Database.Store.SaveMessage: `log.Fatal` ends the process, so their results are stated only while `exited` is false; after it they return a placeholder that no caller can observe.
- The driver's answers (the `Driver` datatype of module `Database`) are fixed for the life of the process, which is how `initDB` uses them (it runs once).
- The HTTP route handlers and `main.go` (their ticker loops and duplicate helpers), the CORS middleware, `internal/db/database.go` and the Python `xbot/` tree are not part of this model.
