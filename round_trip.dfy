/** The server's frames read back by the client: the text that a sequence
    of `SendSse` calls writes, cut into chunks in any way, is decoded by
    `processStream` into exactly the payloads that were sent, in order.

    A payload must hold no line terminator. `json.Marshal` output never
    does (it escapes newline, carriage return, U+2028 and U+2029), and the
    client's `(.*)` stops at the first one, so the condition is needed and
    not only the absence of blank lines. */
module RoundTrip {
  import opened Common
  import opened EventStream
  import Sse

  /** The body written by sending each payload with `SendSse`, one after
      another. */
  function EncodeAll(payloads: seq<string>): string
    decreases |payloads|
  {
    if payloads == [] then "" else Sse.Frame(payloads[0]) + EncodeAll(payloads[1..])
  }

  /** The calls made by sending each payload with `SendSse`. */
  function Responses(payloads: seq<string>): seq<Sse.Effect>
    decreases |payloads|
  {
    if payloads == [] then [] else Sse.SendSse(Ok(payloads[0])) + Responses(payloads[1..])
  }

  /** Each call writes its frame and flushes once. */
  lemma {:induction false} ResponsesWrite(payloads: seq<string>)
    ensures Sse.Written(Responses(payloads)) == EncodeAll(payloads)
    ensures Sse.Flushes(Responses(payloads)) == |payloads|
    decreases |payloads|
  {
    if payloads != [] {
      ResponsesWrite(payloads[1..]);
      Sse.SendSseWritesOneFrame(Ok(payloads[0]));
      Sse.EffectsAppend(Sse.SendSse(Ok(payloads[0])), Responses(payloads[1..]));
    }
  }

  /** The events the client sees: each frame without its blank line. */
  function Events(payloads: seq<string>): (events: seq<string>)
    ensures |events| == |payloads|
  {
    seq(|payloads|, i requires 0 <= i < |payloads| => DataPrefix + payloads[i])
  }

  /** A piece without a separator that does not end in a newline is cut off
      at the blank line right after it. */
  lemma {:induction false} SplitAfterPiece(u: string, t: string)
    requires NoSeparator(u) && !EndsWithNewline(u)
    ensures Split(u + Separator + t) == [u] + Split(t)
    decreases |u|
  {
    var s := u + Separator + t;
    if u == [] {
      assert s == Separator + t;
      assert SeparatorAt(s, 0);
      assert s[2..] == t;
    } else {
      assert !SeparatorAt(s, 0) by {
        if |u| >= 2 {
          assert !SeparatorAt(u, 0);
        }
      }
      var v := u[1..];
      assert NoSeparator(v) by {
        forall i | 0 <= i < |v| ensures !SeparatorAt(v, i) {
          assert !SeparatorAt(u, i + 1);
        }
      }
      SplitAfterPiece(v, t);
      assert s[1..] == v + Separator + t;
      SplitUnfoldChar(s);
      assert [s[0]] + v == u;
    }
  }

  lemma FrameIsEventAndSeparator(p: string)
    ensures Sse.Frame(p) == (DataPrefix + p) + Separator
  {
  }

  lemma EventHasNoSeparator(p: string)
    requires NoLineTerminator(p)
    ensures NoSeparator(DataPrefix + p) && !EndsWithNewline(DataPrefix + p)
  {
    var u := DataPrefix + p;
    assert forall i :: 0 <= i < |u| ==> u[i] != '\n' by {
      forall i | 0 <= i < |u| ensures u[i] != '\n' {
        if i >= |DataPrefix| {
          assert u[i] == p[i - |DataPrefix|];
        }
      }
    }
  }

  lemma EventsCons(payloads: seq<string>)
    requires payloads != []
    ensures Events(payloads) == [DataPrefix + payloads[0]] + Events(payloads[1..])
  {
  }

  /** The body of the first frame and the rest. */
  lemma EncodeAllCons(payloads: seq<string>)
    requires payloads != []
    ensures EncodeAll(payloads) == (DataPrefix + payloads[0]) + Separator + EncodeAll(payloads[1..])
  {
    FrameIsEventAndSeparator(payloads[0]);
  }

  /** The body splits into one event per payload, and nothing is left. */
  lemma {:induction false} SplitEncoded(payloads: seq<string>)
    requires forall i :: 0 <= i < |payloads| ==> NoLineTerminator(payloads[i])
    ensures Split(EncodeAll(payloads)) == Events(payloads) + [""]
    decreases |payloads|
  {
    if payloads == [] {
      assert Split("") == [""];
    } else {
      var u := DataPrefix + payloads[0];
      var rest := payloads[1..];
      SplitEncoded(rest);
      EventHasNoSeparator(payloads[0]);
      EncodeAllCons(payloads);
      SplitAfterPiece(u, EncodeAll(rest));
      EventsCons(payloads);
      AppendAssoc([u], Events(rest), [""]);
    }
  }

  lemma FramesOfEncoded(payloads: seq<string>)
    requires forall i :: 0 <= i < |payloads| ==> NoLineTerminator(payloads[i])
    ensures Frames(EncodeAll(payloads)) == Events(payloads)
    ensures Rest(EncodeAll(payloads)) == ""
  {
    SplitEncoded(payloads);
    var pieces := Events(payloads) + [""];
    assert pieces[..|pieces| - 1] == Events(payloads);
  }

  /** An event sent by the server has its payload as its data line. */
  lemma DataLineOfEvent(p: string)
    requires NoLineTerminator(p)
    ensures DataLine(DataPrefix + p) == Some(p)
  {
    var s := DataPrefix + p;
    assert s[0..0 + |DataPrefix|] == DataPrefix;
    var e := LineEnd(s, |DataPrefix|);
    assert e == |s| by {
      assert forall k :: |DataPrefix| <= k < |s| ==> s[k] == p[k - |DataPrefix|];
    }
    assert s[|DataPrefix|..|s|] == p;
    assert MatchFrom(s, 0) == Some(0);
  }

  /** Reading the events back yields the payloads and their texts. */
  lemma {:induction false} DataPayloadsOfEvents(payloads: seq<string>)
    requires forall i :: 0 <= i < |payloads| ==> NoLineTerminator(payloads[i])
    ensures DataPayloads(Events(payloads)) == payloads
    decreases |payloads|
  {
    if payloads != [] {
      var n := |payloads|;
      var init := payloads[..n - 1];
      assert Events(payloads)[..n - 1] == Events(init);
      DataPayloadsOfEvents(init);
      DataLineOfEvent(payloads[n - 1]);
      assert init + [payloads[n - 1]] == payloads;
    }
  }

  lemma DecodeSentEvents(payloads: seq<string>, jsonText: string -> Option<string>)
    requires forall i :: 0 <= i < |payloads| ==> NoLineTerminator(payloads[i]) && jsonText(payloads[i]).Some?
    ensures DecodeEvents(Events(payloads), jsonText) == Decoding(payloads, Texts(payloads, jsonText), true)
  {
    var events := Events(payloads);
    assert AllParse(events, jsonText) by {
      forall i | 0 <= i < |events| && DataLine(events[i]).Some?
        ensures jsonText(DataLine(events[i]).value).Some?
      {
        DataLineOfEvent(payloads[i]);
      }
    }
    DecodeMeaning(events, jsonText);
    DataPayloadsOfEvents(payloads);
  }

  /** The round trip: whatever chunks the body written by the `SendSse`
      calls arrives in, the client reads every chunk, keeps nothing in its
      buffer, and has parsed exactly the payloads sent, in order; its reply
      is the concatenation of their texts, and it is shown once at least
      one payload has arrived. */
  lemma RoundTrip(payloads: seq<string>, chunks: seq<string>, live: string, jsonText: string -> Option<string>)
    requires forall i :: 0 <= i < |payloads| ==> NoLineTerminator(payloads[i]) && jsonText(payloads[i]).Some?
    requires Concat(chunks) == Sse.Written(Responses(payloads))
    ensures Run(live, chunks, jsonText)
         == StreamState("", Texts(payloads, jsonText), if payloads == [] then live else Texts(payloads, jsonText), payloads, true)
  {
    ResponsesWrite(payloads);
    FramesOfEncoded(payloads);
    DecodeSentEvents(payloads, jsonText);
    RunIsDecodedConcat(live, chunks, jsonText);
  }

  /** A payload holding a line terminator does not survive: the client
      keeps only the part before the first one, whatever follows it. */
  lemma NewlineInPayloadTruncates(x: string, c: char, y: string)
    requires NoLineTerminator(x) && IsLineTerminator(c)
    ensures DataLine(DataPrefix + x + [c] + y) == Some(x)
  {
    var s := DataPrefix + x + [c] + y;
    var n := |DataPrefix|;
    assert s[0..0 + n] == DataPrefix;
    assert MatchFrom(s, 0) == Some(0);
    assert forall k :: n <= k < n + |x| ==> s[k] == x[k - n];
    assert IsLineTerminator(s[n + |x|]);
    assert LineEnd(s, n) == n + |x|;
    assert s[n..n + |x|] == x;
  }
}
