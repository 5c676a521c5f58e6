/** The two server-sent-event writers: `SendSse` of internal/sse/sse.go and
    the older `sendSse` of internal/sse.go. Each takes the outcome of
    `json.Marshal` (the JSON text, or the marshalling error) and returns the
    calls it makes on the gin context, in order. */
module Sse {
  import opened Common

  /** A call on the gin context or its response writer. */
  datatype Effect =
    | SetHeader(name: string, value: string)  // `c.Writer.Header().Set`
    | WriteString(text: string)                // `c.Writer.WriteString`
    | Flush                                    // `c.Writer.Flush`
    | AbortWithStatus(status: int)             // `c.AbortWithStatus`

  /** `http.StatusInternalServerError` */
  const InternalServerError: int := 500

  /** The headers `SendSse` sets, in the order it sets them. */
  const StreamHeaders: seq<Effect> := [
    SetHeader("Content-Type", "text/event-stream"),
    SetHeader("Cache-Control", "no-cache"),
    SetHeader("Connection", "keep-alive")
  ]

  /** `fmt.Sprintf("data: %s\n\n", data)` */
  function Frame(data: string): string {
    "data: " + data + "\n\n"
  }

  /** `SendSse` (internal/sse/sse.go). */
  function SendSse(marshalled: Result<string, string>): (effects: seq<Effect>)
  {
    match marshalled
    case Err(_) => [AbortWithStatus(InternalServerError)]
    case Ok(data) => StreamHeaders + [WriteString(Frame(data)), Flush]
  }

  /** `sendSse` (internal/sse.go): the same frame, without headers. */
  function SendSseBare(marshalled: Result<string, string>): (effects: seq<Effect>)
  {
    match marshalled
    case Err(_) => [AbortWithStatus(InternalServerError)]
    case Ok(data) => [WriteString(Frame(data)), Flush]
  }

  /** The calls that are not header updates, in order. */
  function WithoutHeaders(effects: seq<Effect>): seq<Effect>
    decreases |effects|
  {
    if effects == [] then []
    else WithoutHeaders(effects[..|effects| - 1]) + (if effects[|effects| - 1].SetHeader? then [] else [effects[|effects| - 1]])
  }

  /** The text written to the body, in order. */
  function Written(effects: seq<Effect>): string
    decreases |effects|
  {
    if effects == [] then ""
    else Written(effects[..|effects| - 1]) + (if effects[|effects| - 1].WriteString? then effects[|effects| - 1].text else "")
  }

  /** How many flushes the calls make. */
  function Flushes(effects: seq<Effect>): nat
    decreases |effects|
  {
    if effects == [] then 0
    else Flushes(effects[..|effects| - 1]) + (if effects[|effects| - 1].Flush? then 1 else 0)
  }

  /** The three measures distribute over a sequence of calls made one
      after another. */
  lemma {:induction false} EffectsAppend(a: seq<Effect>, b: seq<Effect>)
    ensures Written(a + b) == Written(a) + Written(b)
    ensures Flushes(a + b) == Flushes(a) + Flushes(b)
    ensures WithoutHeaders(a + b) == WithoutHeaders(a) + WithoutHeaders(b)
    decreases |b|
  {
    if b == [] {
      assert a + b == a;
    } else {
      var init, last := b[..|b| - 1], b[|b| - 1];
      DropLastAppend(a, b);
      EffectsAppend(a, init);
      AppendAssoc(Written(a), Written(init), if last.WriteString? then last.text else "");
      AppendAssoc(WithoutHeaders(a), WithoutHeaders(init), if last.SetHeader? then [] else [last]);
    }
  }

  /** Header updates write nothing and flush nothing. */
  lemma {:induction false} HeadersOnly(effects: seq<Effect>)
    requires forall i :: 0 <= i < |effects| ==> effects[i].SetHeader?
    ensures Written(effects) == "" && Flushes(effects) == 0 && WithoutHeaders(effects) == []
    decreases |effects|
  {
    if effects != [] {
      HeadersOnly(effects[..|effects| - 1]);
    }
  }

  /** One call makes exactly five calls: the three stream headers first,
      then one frame written and flushed once after it, and no abort; a
      marshalling error only aborts with status 500, writing, flushing and
      setting nothing. */
  lemma SendSseWritesOneFrame(marshalled: Result<string, string>)
    ensures var effects := SendSse(marshalled);
      && (marshalled.Ok? ==>
            && |effects| == 5 && effects[..3] == StreamHeaders
            && (forall i :: 0 <= i < |effects| ==> !effects[i].AbortWithStatus?)
            && Written(effects) == Frame(marshalled.value) && Flushes(effects) == 1
            && effects[|effects| - 1] == Flush
            && forall i, j :: 0 <= i < j < |effects| && effects[i].WriteString? ==> !effects[j].SetHeader?)
      && (marshalled.Err? ==>
            && effects == [AbortWithStatus(InternalServerError)]
            && Written(effects) == "" && Flushes(effects) == 0
            && forall i :: 0 <= i < |effects| ==> !effects[i].SetHeader?)
  {
    if marshalled.Ok? {
      var tail := [WriteString(Frame(marshalled.value)), Flush];
      HeadersOnly(StreamHeaders);
      EffectsAppend(StreamHeaders, tail);
      assert tail[..1][..0] == [];
    }
  }

  /** The two writers differ only in the headers: dropping them from
      `SendSse`'s calls leaves exactly `sendSse`'s. */
  lemma BareIsSendSseWithoutHeaders(marshalled: Result<string, string>)
    ensures SendSseBare(marshalled) == WithoutHeaders(SendSse(marshalled))
    ensures forall i :: 0 <= i < |SendSseBare(marshalled)| ==> !SendSseBare(marshalled)[i].SetHeader?
  {
    if marshalled.Ok? {
      var tail := [WriteString(Frame(marshalled.value)), Flush];
      HeadersOnly(StreamHeaders);
      EffectsAppend(StreamHeaders, tail);
      assert tail[..1][..0] == [];
    } else {
      assert SendSse(marshalled)[..0] == [];
    }
  }
}
