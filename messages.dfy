/** The server's message record (internal/chat/chat_model.go and
    internal/message.go declare the same fields), the chat messages handed
    to the language model, and the two loops both history stores share:
    reading query rows and mapping stored messages to chat messages. */
module Messages {
  import opened Common

  /** A stored message; the timestamp is an opaque instant. */
  datatype Message = Message(id: string, sessionID: string, sender: string, text: string, timestamp: int)

  /** `schema.HumanChatMessage` and `schema.AIChatMessage`. */
  datatype ChatMessage = Human(content: string) | AI(content: string)

  /** `schema.ChatMessageTypeHuman` */
  const HumanSender: string := "human"

  /** `schema.ChatMessageTypeAI` */
  const AISender: string := "ai"

  /** The history handed to the model keeps the order and the texts of the
      stored messages; a message is the user's exactly when its sender is
      `"human"`, and every other sender is read as the model's. */
  predicate ChatHistoryOf(messages: seq<Message>, chats: seq<ChatMessage>) {
    && |chats| == |messages|
    && forall i :: 0 <= i < |messages| ==>
         chats[i].content == messages[i].text && (chats[i].Human? <==> messages[i].sender == HumanSender)
  }

  /** The `for _, msg := range messages` loop of `getChatHistories`. */
  method ToChatMessages(messages: seq<Message>) returns (chats: seq<ChatMessage>)
    ensures ChatHistoryOf(messages, chats)
  {
    chats := [];
    for i := 0 to |messages|
      invariant ChatHistoryOf(messages[..i], chats)
    {
      if messages[i].sender == HumanSender {
        chats := chats + [Human(messages[i].text)];
      } else {
        chats := chats + [AI(messages[i].text)];
      }
    }
    assert messages[..|messages|] == messages;
  }

  /** One `rows.Scan` into a message. */
  datatype Scan = Scanned(message: Message) | ScanFailed(error: string)

  /** A query's result set: what each `rows.Next()` step scans, and the
      error `rows.Err()` reports once `rows.Next()` has returned false. */
  datatype Rows = Rows(scans: seq<Scan>, err: Option<string>)

  predicate AllScanned(scans: seq<Scan>) {
    forall i :: 0 <= i < |scans| ==> scans[i].Scanned?
  }

  function ScannedMessages(scans: seq<Scan>): (messages: seq<Message>)
    requires AllScanned(scans)
  {
    seq(|scans|, i requires 0 <= i < |scans| => scans[i].message)
  }

  /** The error of the first row that fails to scan. */
  function FirstScanError(scans: seq<Scan>): string
    requires !AllScanned(scans)
    decreases |scans|
  {
    if scans[0].ScanFailed? then scans[0].error else FirstScanError(scans[1..])
  }

  lemma {:induction false} FirstScanErrorAt(scans: seq<Scan>, k: nat)
    requires k < |scans| && scans[k].ScanFailed?
    requires forall j :: 0 <= j < k ==> scans[j].Scanned?
    ensures !AllScanned(scans) && FirstScanError(scans) == scans[k].error
    decreases k
  {
    if k > 0 {
      FirstScanErrorAt(scans[1..], k - 1);
    }
  }

  /** The `for rows.Next()` loop: every row is scanned in order, and the
      first row that fails to scan ends the loop with its error. */
  method ReadRows(scans: seq<Scan>) returns (r: Result<seq<Message>, string>)
    ensures r == if AllScanned(scans) then Ok(ScannedMessages(scans)) else Err(FirstScanError(scans))
  {
    var messages := [];
    var i := 0;
    while i < |scans|
      invariant 0 <= i <= |scans|
      invariant AllScanned(scans[..i]) && messages == ScannedMessages(scans[..i])
    {
      if scans[i].ScanFailed? {
        FirstScanErrorAt(scans, i);
        return Err(scans[i].error);
      }
      messages := messages + [scans[i].message];
      i := i + 1;
    }
    assert scans[..i] == scans;
    r := Ok(messages);
  }
}
