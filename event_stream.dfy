/** The event-stream decoding that `processStream` in client/src/Chat.tsx
    performs on the text it reads: the residual buffer is split on blank
    lines, every complete event's first `data: ` line is handed to
    `JSON.parse`, and the `.text` fields are appended to the reply.

    This module holds the pure definitions (what one chunk does to the
    decoder's state, and what the whole received text determines); the
    class in module ChatClient runs them step by step. */
module EventStream {
  import opened Common

  /** The event separator searched for by `split("\n\n")`. */
  const Separator: string := "\n\n"

  /** The literal that starts the payload line matched by `/^data: (.*)$/m`. */
  const DataPrefix: string := "data: "

  // ---------------------------------------------------------------------
  // Splitting on blank lines: JavaScript's `String.prototype.split("\n\n")`
  // ---------------------------------------------------------------------

  predicate SeparatorAt(s: string, i: int) {
    0 <= i && i + 1 < |s| && s[i] == '\n' && s[i + 1] == '\n'
  }

  predicate NoSeparator(s: string) {
    forall i :: 0 <= i < |s| ==> !SeparatorAt(s, i)
  }

  predicate EndsWithNewline(s: string) {
    |s| > 0 && s[|s| - 1] == '\n'
  }

  /** `s.split("\n\n")`: the separator is searched from the left and the
      occurrences found do not overlap. The result is never empty. */
  function Split(s: string): (pieces: seq<string>)
    ensures |pieces| >= 1
    decreases |s|
  {
    if |s| < 2 then [s]
    else if SeparatorAt(s, 0) then [""] + Split(s[2..])
    else
      var rest := Split(s[1..]);
      [[s[0]] + rest[0]] + rest[1..]
  }

  /** `pieces.join("\n\n")`, the inverse of Split. */
  function Join(pieces: seq<string>): string
    requires |pieces| >= 1
    decreases |pieces|
  {
    if |pieces| == 1 then pieces[0] else pieces[0] + Separator + Join(pieces[1..])
  }

  /** What a left-to-right, non-overlapping split produces: no piece holds
      a separator, and no piece but the last ends with a newline (else the
      separator would have been found one position earlier). */
  predicate LeftmostPieces(pieces: seq<string>) {
    && |pieces| >= 1
    && (forall k :: 0 <= k < |pieces| ==> NoSeparator(pieces[k]))
    && (forall k :: 0 <= k < |pieces| - 1 ==> !EndsWithNewline(pieces[k]))
  }

  lemma JoinCons(a: string, r: seq<string>)
    requires r != []
    ensures Join([a] + r) == a + Separator + Join(r)
  {
    assert ([a] + r)[1..] == r;
  }

  /** Prefixing a character to the first piece prefixes it to the join. */
  lemma JoinPrefixChar(c: char, r: seq<string>)
    requires |r| >= 1
    ensures Join([[c] + r[0]] + r[1..]) == [c] + Join(r)
  {
    if |r| > 1 {
      var t := r[1..];
      JoinCons([c] + r[0], t);
      assert Join(r) == r[0] + Separator + Join(t);
      AppendAssoc([c], r[0], Separator);
      AppendAssoc([c], r[0] + Separator, Join(t));
    }
  }

  /** Split cuts the text at separators only: joining the pieces back gives the text. */
  lemma {:induction false} JoinSplit(s: string)
    ensures Join(Split(s)) == s
    decreases |s|
  {
    if |s| < 2 {
    } else if SeparatorAt(s, 0) {
      JoinSplit(s[2..]);
      JoinCons("", Split(s[2..]));
      assert s == "" + Separator + s[2..];
    } else {
      JoinSplit(s[1..]);
      SplitUnfoldChar(s);
      JoinPrefixChar(s[0], Split(s[1..]));
      assert s == [s[0]] + s[1..];
    }
  }

  /** The first piece of a text is a prefix of it. */
  lemma FirstPiecePrefix(s: string)
    ensures |Split(s)[0]| <= |s| && s[..|Split(s)[0]|] == Split(s)[0]
    ensures |Split(s)| > 1 ==> |Split(s)[0]| + 2 <= |s| && SeparatorAt(s, |Split(s)[0]|)
  {
    var p := Split(s);
    JoinSplit(s);
    if |p| > 1 {
      assert Join(p) == p[0] + Separator + Join(p[1..]);
    }
  }

  lemma NoSeparatorCons(c: char, x: string)
    requires NoSeparator(x) && !(c == '\n' && |x| > 0 && x[0] == '\n')
    ensures NoSeparator([c] + x)
  {
    var y := [c] + x;
    forall i | 0 <= i < |y| ensures !SeparatorAt(y, i) {
      if i >= 1 {
        assert !SeparatorAt(x, i - 1);
      }
    }
  }

  /** Replacing the first piece of a leftmost split by a piece that holds no
      separator and (when more follow) does not end with a newline. */
  lemma LeftmostCons(head: string, r: seq<string>)
    requires LeftmostPieces(r) && NoSeparator(head)
    requires |r| > 1 ==> !EndsWithNewline(head)
    ensures LeftmostPieces([head] + r[1..])
  {
    var p := [head] + r[1..];
    forall k | 1 <= k < |p| ensures NoSeparator(p[k]) {
      assert p[k] == r[k];
    }
    forall k | 1 <= k < |p| - 1 ensures !EndsWithNewline(p[k]) {
      assert p[k] == r[k];
    }
  }

  lemma SplitLeftmostStep(s: string)
    requires |s| >= 2 && !SeparatorAt(s, 0)
    requires LeftmostPieces(Split(s[1..]))
    ensures LeftmostPieces(Split(s))
  {
    var r := Split(s[1..]);
    var head := [s[0]] + r[0];
    SplitUnfoldChar(s);
    FirstPiecePrefix(s[1..]);
    assert |r[0]| > 0 ==> r[0][0] == s[1..][..|r[0]|][0];
    NoSeparatorCons(s[0], r[0]);
    if |r| > 1 {
      if |r[0]| > 0 {
        assert !EndsWithNewline(r[0]);
        assert head[|head| - 1] == r[0][|r[0]| - 1];
      } else {
        assert SeparatorAt(s[1..], 0);
      }
    }
    LeftmostCons(head, r);
  }

  /** Split cuts at the leftmost separators and leaves none inside a piece. */
  lemma {:induction false} SplitLeftmost(s: string)
    ensures LeftmostPieces(Split(s))
    decreases |s|
  {
    var p := Split(s);
    if |s| < 2 {
      assert p == [s];
      assert NoSeparator(s);
    } else if SeparatorAt(s, 0) {
      var r := Split(s[2..]);
      SplitLeftmost(s[2..]);
      assert p == [""] + r;
      forall k | 1 <= k < |p| ensures NoSeparator(p[k]) {
        assert p[k] == r[k - 1];
      }
      forall k | 1 <= k < |p| - 1 ensures !EndsWithNewline(p[k]) {
        assert p[k] == r[k - 1];
      }
    } else {
      SplitLeftmost(s[1..]);
      SplitLeftmostStep(s);
    }
  }

  /** A text without a separator is one unfinished piece. */
  lemma {:induction false} SplitWhole(s: string)
    requires NoSeparator(s)
    ensures Split(s) == [s]
    decreases |s|
  {
    if |s| >= 2 {
      assert !SeparatorAt(s, 0);
      assert NoSeparator(s[1..]) by {
        forall i ensures !SeparatorAt(s[1..], i) {
          assert !SeparatorAt(s, i + 1);
        }
      }
      SplitWhole(s[1..]);
      assert [s[0]] + s[1..] == s;
    }
  }

  /** Appending text never changes the pieces already completed: only the
      last, unfinished piece can grow or be cut further. */
  lemma {:induction false} SplitAppend(s: string, t: string)
    ensures var p := Split(s); Split(s + t) == p[..|p| - 1] + Split(p[|p| - 1] + t)
    decreases |s|
  {
    var p := Split(s);
    if |s| < 2 {
      assert p == [s];
      assert p[..|p| - 1] == [];
    } else if SeparatorAt(s, 0) {
      SplitAppend(s[2..], t);
      SplitAppendSeparator(s, t);
    } else {
      SplitAppend(s[1..], t);
      SplitAppendChar(s, t);
    }
  }

  lemma SplitAppendSeparator(s: string, t: string)
    requires SeparatorAt(s, 0)
    requires var r := Split(s[2..]); Split(s[2..] + t) == r[..|r| - 1] + Split(r[|r| - 1] + t)
    ensures var p := Split(s); Split(s + t) == p[..|p| - 1] + Split(p[|p| - 1] + t)
  {
    var r := Split(s[2..]);
    assert (s + t)[2..] == s[2..] + t;
    assert SeparatorAt(s + t, 0);
    ConsDropLast("", r);
    AppendAssoc([""], r[..|r| - 1], Split(r[|r| - 1] + t));
  }

  lemma SplitUnfoldChar(x: string)
    requires |x| >= 2 && !SeparatorAt(x, 0)
    ensures Split(x) == [[x[0]] + Split(x[1..])[0]] + Split(x[1..])[1..]
  {
  }

  lemma SplitAppendChar(s: string, t: string)
    requires |s| >= 2 && !SeparatorAt(s, 0)
    requires var r := Split(s[1..]); Split(s[1..] + t) == r[..|r| - 1] + Split(r[|r| - 1] + t)
    ensures var p := Split(s); Split(s + t) == p[..|p| - 1] + Split(p[|p| - 1] + t)
  {
    var r := Split(s[1..]);
    assert (s + t)[1..] == s[1..] + t;
    assert (s + t)[0] == s[0];
    SplitUnfoldChar(s);
    SplitUnfoldChar(s + t);
    if |r| == 1 {
      SplitAppendCharOne(s, t);
    } else {
      SplitAppendCharMany(s, t);
    }
  }

  lemma SplitAppendCharOne(s: string, t: string)
    requires |s| >= 2 && !SeparatorAt(s, 0) && |Split(s[1..])| == 1
    requires Split(s) == [[s[0]] + Split(s[1..])[0]]
    ensures var p := Split(s); Split(s + t) == p[..|p| - 1] + Split(p[|p| - 1] + t)
  {
    var r := Split(s[1..]);
    JoinSplit(s[1..]);
    assert r[0] == s[1..];
    assert [s[0]] + r[0] == s;
  }

  lemma SplitAppendCharMany(s: string, t: string)
    requires |s| >= 2 && !SeparatorAt(s, 0) && |Split(s[1..])| > 1
    requires var r := Split(s[1..]); Split(s[1..] + t) == r[..|r| - 1] + Split(r[|r| - 1] + t)
    requires Split(s) == [[s[0]] + Split(s[1..])[0]] + Split(s[1..])[1..]
    requires Split(s + t) == [[s[0]] + Split(s[1..] + t)[0]] + Split(s[1..] + t)[1..]
    ensures var p := Split(s); Split(s + t) == p[..|p| - 1] + Split(p[|p| - 1] + t)
  {
    var r := Split(s[1..]);
    ReplaceHead([s[0]] + r[0], r, Split(r[|r| - 1] + t));
  }

  /** The complete events of a text: every piece but the last. */
  function Frames(s: string): seq<string> {
    var p := Split(s);
    p[..|p| - 1]
  }

  /** The unfinished tail of a text, which `events.pop()` keeps as the buffer. */
  function Rest(s: string): string {
    var p := Split(s);
    p[|p| - 1]
  }

  /** The residual buffer never holds a separator; it is the whole text when
      no separator was found, and otherwise the text after the last one. */
  lemma RestIsUnfinishedTail(s: string)
    ensures NoSeparator(Rest(s))
    ensures Frames(s) == [] ==> Rest(s) == s
    ensures Frames(s) != [] ==> s == Join(Frames(s)) + Separator + Rest(s)
  {
    JoinSplit(s);
    SplitLeftmost(s);
    var p := Split(s);
    if |p| > 1 {
      JoinLast(p);
    }
  }

  lemma {:induction false} JoinLast(p: seq<string>)
    requires |p| >= 2
    ensures Join(p) == Join(p[..|p| - 1]) + Separator + p[|p| - 1]
    decreases |p|
  {
    if |p| > 2 {
      JoinLast(p[1..]);
      assert p[1..][..|p| - 2] == p[..|p| - 1][1..];
    } else {
      assert p[..|p| - 1] == [p[0]];
    }
  }

  lemma FramesAppend(s: string, t: string)
    ensures Frames(s + t) == Frames(s) + Frames(Rest(s) + t)
    ensures Rest(s + t) == Rest(Rest(s) + t)
  {
    SplitAppend(s, t);
    var q := Split(Rest(s) + t);
    assert Split(s + t) == Frames(s) + q;
    assert (Frames(s) + q)[..|Frames(s) + q| - 1] == Frames(s) + q[..|q| - 1];
  }

  // ---------------------------------------------------------------------
  // The payload line: `event.match(/^data: (.*)$/m)`
  // ---------------------------------------------------------------------

  /** The characters JavaScript regular expressions treat as line ends:
      `.` does not match them, and `^`/`$` match next to them in `m` mode. */
  predicate IsLineTerminator(c: char) {
    c == '\n' || c == '\r' || c == '\U{2028}' || c == '\U{2029}'
  }

  predicate NoLineTerminator(s: string) {
    forall i :: 0 <= i < |s| ==> !IsLineTerminator(s[i])
  }

  /** The end of the line that position i is on. */
  function LineEnd(s: string, i: nat): (e: nat)
    requires i <= |s|
    ensures i <= e <= |s|
    ensures forall k :: i <= k < e ==> !IsLineTerminator(s[k])
    ensures e < |s| ==> IsLineTerminator(s[e])
    decreases |s| - i
  {
    if i == |s| || IsLineTerminator(s[i]) then i else LineEnd(s, i + 1)
  }

  /** Where `^` matches in multi-line mode. */
  predicate LineStart(s: string, p: nat) {
    p == 0 || (p <= |s| && IsLineTerminator(s[p - 1]))
  }

  /** A position where the regular expression matches. */
  predicate DataLineAt(s: string, p: nat) {
    LineStart(s, p) && PrefixAt(s, p)
  }

  /** The text at p starts with `data: `. */
  predicate PrefixAt(s: string, p: nat) {
    p + |DataPrefix| <= |s| && s[p..p + |DataPrefix|] == DataPrefix
  }

  /** Where the first match starts, searching the lines from the line
      starting at p. */
  function MatchFrom(s: string, p: nat): (q: Option<nat>)
    requires p <= |s|
    ensures q.Some? ==> p <= q.value && q.value + |DataPrefix| <= |s| && s[q.value..q.value + |DataPrefix|] == DataPrefix
    decreases |s| - p
  {
    if PrefixAt(s, p) then Some(p)
    else
      var e := LineEnd(s, p);
      if e == |s| then None else MatchFrom(s, e + 1)
  }

  /** The capture group of the first match of `/^data: (.*)$/m`, if any:
      `(.*)` never crosses a line terminator. */
  function DataLine(event: string): (r: Option<string>)
    ensures r.Some? ==> NoLineTerminator(r.value) && |DataPrefix| + |r.value| <= |event|
  {
    match MatchFrom(event, 0)
    case None => None
    case Some(q) =>
      var b, e := q + |DataPrefix|, LineEnd(event, q + |DataPrefix|);
      var line := event[b..e];
      assert forall k :: 0 <= k < |line| ==> line[k] == event[b + k];
      Some(line)
  }

  predicate NoMatchBelow(s: string, n: nat) {
    forall q: nat :: q < n ==> !DataLineAt(s, q)
  }

  /** `m` is where the first match starts, or None when there is none. */
  ghost predicate IsFirstMatch(s: string, m: Option<nat>) {
    match m
    case None => forall q: nat :: !DataLineAt(s, q)
    case Some(q) => DataLineAt(s, q) && NoMatchBelow(s, q)
  }

  /** A line that does not start with `data: ` holds no match, and after
      the last line there is none either. */
  lemma NoMatchInLine(s: string, p: nat)
    requires p <= |s| && !PrefixAt(s, p) && NoMatchBelow(s, p)
    ensures NoMatchBelow(s, LineEnd(s, p) + 1)
    ensures LineEnd(s, p) == |s| ==> IsFirstMatch(s, None)
  {
    var e := LineEnd(s, p);
    forall q: nat | p < q <= e ensures !LineStart(s, q) {
      assert !IsLineTerminator(s[q - 1]);
    }
    assert forall q: nat :: q <= e ==> !DataLineAt(s, q);
  }

  lemma {:induction false} MatchFromFirst(s: string, p: nat)
    requires p <= |s| && LineStart(s, p) && NoMatchBelow(s, p)
    ensures IsFirstMatch(s, MatchFrom(s, p))
    decreases |s| - p
  {
    if PrefixAt(s, p) {
      assert MatchFrom(s, p) == Some(p) && DataLineAt(s, p);
    } else {
      var e := LineEnd(s, p);
      NoMatchInLine(s, p);
      if e < |s| {
        MatchFromFirst(s, e + 1);
      }
    }
  }

  /** DataLine is the first match of the regular expression: it is missing
      exactly when no line starts with `data: `, and otherwise it is the rest
      of the first such line. */
  lemma DataLineIsFirstMatch(event: string)
    ensures DataLine(event).None? <==> forall q: nat :: !DataLineAt(event, q)
    ensures DataLine(event).Some? ==>
      exists q: nat :: && DataLineAt(event, q) && (forall q': nat :: q' < q ==> !DataLineAt(event, q'))
                       && DataLine(event).value == event[q + |DataPrefix|..LineEnd(event, q + |DataPrefix|)]
  {
    MatchFromFirst(event, 0);
    if MatchFrom(event, 0).Some? {
      var q := MatchFrom(event, 0).value;
      assert DataLineAt(event, q) && NoMatchBelow(event, q);
    }
  }

  // ---------------------------------------------------------------------
  // Decoding the complete events of one read
  // ---------------------------------------------------------------------

  /** What the `for (const event of events)` loop has produced: the payloads
      parsed so far, the text appended to `combinedMessage`, and whether the
      loop is still running (`JSON.parse` has not thrown). */
  datatype Decoding = Decoding(payloads: seq<string>, text: string, ok: bool)

  /** The events, in order, until a payload fails to parse. `jsonText` stands
      for `JSON.parse(data).text` converted by `+=`: None when either throws. */
  function DecodeEvents(events: seq<string>, jsonText: string -> Option<string>): (d: Decoding)
    ensures |d.payloads| <= |events|
    decreases |events|
  {
    if events == [] then Decoding([], "", true)
    else Step(DecodeEvents(events[..|events| - 1], jsonText), events[|events| - 1], jsonText)
  }

  /** One pass of the loop body: an event without a payload line is
      skipped, a payload that does not parse stops the loop, and one that
      parses is appended. Nothing happens once the loop has stopped. */
  function Step(d: Decoding, event: string, jsonText: string -> Option<string>): Decoding {
    if !d.ok then d
    else
      match DataLine(event)
      case None => d
      case Some(payload) =>
        match jsonText(payload)
        case None => Decoding(d.payloads, d.text, false)
        case Some(t) => Decoding(d.payloads + [payload], d.text + t, true)
  }

  /** The texts of the payloads, in order. */
  function Texts(payloads: seq<string>, jsonText: string -> Option<string>): string
    decreases |payloads|
  {
    if payloads == [] then ""
    else Texts(payloads[..|payloads| - 1], jsonText) + jsonText(payloads[|payloads| - 1]).GetOr("")
  }

  /** Every event whose payload line is present parses. */
  predicate AllParse(events: seq<string>, jsonText: string -> Option<string>) {
    forall i :: 0 <= i < |events| && DataLine(events[i]).Some? ==> jsonText(DataLine(events[i]).value).Some?
  }

  /** The payload lines of the events that have one, in order. */
  function DataPayloads(events: seq<string>): seq<string>
    decreases |events|
  {
    if events == [] then []
    else
      var last := DataLine(events[|events| - 1]);
      DataPayloads(events[..|events| - 1]) + (if last.Some? then [last.value] else [])
  }

  /** What a decoding of `events` means; see DecodeMeaning. */
  ghost predicate Means(events: seq<string>, d: Decoding, jsonText: string -> Option<string>) {
    && (forall i :: 0 <= i < |d.payloads| ==> jsonText(d.payloads[i]).Some?)
    && d.text == Texts(d.payloads, jsonText)
    && (d.ok <==> AllParse(events, jsonText))
    && (d.ok ==> d.payloads == DataPayloads(events))
    && (!d.ok ==> exists k :: StopsAt(events, k, d, jsonText))
  }

  /** Event k is the first whose payload does not parse, and `d` holds the
      payloads of the events before it. */
  ghost predicate StopsAt(events: seq<string>, k: int, d: Decoding, jsonText: string -> Option<string>) {
    && 0 <= k < |events| && AllParse(events[..k], jsonText)
    && DataLine(events[k]).Some? && jsonText(DataLine(events[k]).value).None?
    && d.payloads == DataPayloads(events[..k])
  }

  lemma AllParseSnoc(init: seq<string>, e: string, jsonText: string -> Option<string>)
    ensures AllParse(init + [e], jsonText) <==>
      AllParse(init, jsonText) && (DataLine(e).Some? ==> jsonText(DataLine(e).value).Some?)
  {
    var events := init + [e];
    assert forall i :: 0 <= i < |init| ==> events[i] == init[i];
    assert events[|init|] == e;
  }

  lemma DecodeSnoc(init: seq<string>, e: string, jsonText: string -> Option<string>)
    ensures DecodeEvents(init + [e], jsonText) == Step(DecodeEvents(init, jsonText), e, jsonText)
    ensures DataPayloads(init + [e]) == DataPayloads(init) + (if DataLine(e).Some? then [DataLine(e).value] else [])
  {
    var events := init + [e];
    assert events[..|events| - 1] == init && events[|events| - 1] == e;
  }

  lemma TextsSnoc(ps: seq<string>, p: string, jsonText: string -> Option<string>)
    ensures Texts(ps + [p], jsonText) == Texts(ps, jsonText) + jsonText(p).GetOr("")
  {
    var qs := ps + [p];
    assert qs[..|qs| - 1] == ps && qs[|qs| - 1] == p;
  }

  lemma DecodeMeaningStep(init: seq<string>, e: string, jsonText: string -> Option<string>)
    requires Means(init, DecodeEvents(init, jsonText), jsonText)
    ensures Means(init + [e], DecodeEvents(init + [e], jsonText), jsonText)
  {
    var d0 := DecodeEvents(init, jsonText);
    DecodeSnoc(init, e, jsonText);
    AllParseSnoc(init, e, jsonText);
    if !d0.ok {
      StopsLater(init, e, d0, jsonText);
    } else if DataLine(e).Some? && jsonText(DataLine(e).value).Some? {
      var payload := DataLine(e).value;
      TextsSnoc(d0.payloads, payload, jsonText);
      var ps := d0.payloads + [payload];
      assert forall i :: 0 <= i < |ps| ==> jsonText(ps[i]).Some? by {
        forall i | 0 <= i < |ps| ensures jsonText(ps[i]).Some? {
          if i < |d0.payloads| {
            assert ps[i] == d0.payloads[i];
          }
        }
      }
    } else if DataLine(e).Some? {
      var events := init + [e];
      assert events[..|init|] == init && events[|init|] == e;
      assert StopsAt(events, |init|, DecodeEvents(events, jsonText), jsonText);
    }
  }

  /** A stop found among the first events is still the stop when one more
      event follows. */
  lemma StopsLater(init: seq<string>, e: string, d: Decoding, jsonText: string -> Option<string>)
    requires exists k :: StopsAt(init, k, d, jsonText)
    ensures exists k :: StopsAt(init + [e], k, d, jsonText)
  {
    var k :| StopsAt(init, k, d, jsonText);
    var events := init + [e];
    assert events[..k] == init[..k] && events[k] == init[k];
    assert StopsAt(events, k, d, jsonText);
  }

  /** The appended text is the concatenation of the texts of exactly the
      payloads that parsed, in arrival order; decoding stops at the first
      payload that does not parse, and only then. */
  lemma {:induction false} DecodeMeaning(events: seq<string>, jsonText: string -> Option<string>)
    ensures var d := DecodeEvents(events, jsonText);
      && (forall i :: 0 <= i < |d.payloads| ==> jsonText(d.payloads[i]).Some?)
      && d.text == Texts(d.payloads, jsonText)
      && (d.ok <==> AllParse(events, jsonText))
      && (d.ok ==> d.payloads == DataPayloads(events))
      && (!d.ok ==> exists k :: && 0 <= k < |events| && AllParse(events[..k], jsonText)
                               && DataLine(events[k]).Some? && jsonText(DataLine(events[k]).value).None?
                               && d.payloads == DataPayloads(events[..k]))
    decreases |events|
  {
    DecodeMeans(events, jsonText);
    var d := DecodeEvents(events, jsonText);
    if !d.ok {
      var k :| StopsAt(events, k, d, jsonText);
    }
  }

  lemma {:induction false} DecodeMeans(events: seq<string>, jsonText: string -> Option<string>)
    ensures Means(events, DecodeEvents(events, jsonText), jsonText)
    decreases |events|
  {
    if events != [] {
      var init := events[..|events| - 1];
      DecodeMeans(init, jsonText);
      DecodeMeaningStep(init, events[|events| - 1], jsonText);
      assert init + [events[|events| - 1]] == events;
    }
  }

  /** One more event of a run that is still going. */
  lemma DecodeNext(events: seq<string>, i: nat, jsonText: string -> Option<string>)
    requires i < |events| && DecodeEvents(events[..i], jsonText).ok
    ensures var d := DecodeEvents(events[..i], jsonText);
      DecodeEvents(events[..i + 1], jsonText) ==
        match DataLine(events[i])
        case None => d
        case Some(payload) =>
          match jsonText(payload)
          case None => Decoding(d.payloads, d.text, false)
          case Some(t) => Decoding(d.payloads + [payload], d.text + t, true)
  {
    assert events[..i + 1][..i] == events[..i];
  }

  /** Decoding two runs of events one after the other. */
  function Then(a: Decoding, b: Decoding): Decoding {
    Decoding(a.payloads + b.payloads, a.text + b.text, b.ok)
  }

  /** Decoding is a left fold: events after a failure are never looked at. */
  lemma {:induction false} DecodeAppend(a: seq<string>, b: seq<string>, jsonText: string -> Option<string>)
    ensures DecodeEvents(a + b, jsonText) ==
      if DecodeEvents(a, jsonText).ok then Then(DecodeEvents(a, jsonText), DecodeEvents(b, jsonText))
      else DecodeEvents(a, jsonText)
    decreases |b|
  {
    var da := DecodeEvents(a, jsonText);
    if b == [] {
      assert a + b == a;
      assert da.payloads + [] == da.payloads;
      assert da.text + "" == da.text;
    } else {
      var init := b[..|b| - 1];
      DropLastAppend(a, b);
      DecodeAppend(a, init, jsonText);
      var d0 := DecodeEvents(init, jsonText);
      if da.ok && d0.ok {
        match DataLine(b[|b| - 1])
        case None =>
        case Some(payload) =>
          match jsonText(payload)
          case None =>
          case Some(t) =>
            AppendAssoc(da.payloads, d0.payloads, [payload]);
            AppendAssoc(da.text, d0.text, t);
      }
    }
  }

  /** Once a prefix of the events has failed, the rest is never decoded. */
  lemma DecodeStops(events: seq<string>, i: nat, jsonText: string -> Option<string>)
    requires i <= |events| && !DecodeEvents(events[..i], jsonText).ok
    ensures DecodeEvents(events, jsonText) == DecodeEvents(events[..i], jsonText)
  {
    DecodeAppend(events[..i], events[i..], jsonText);
    assert events[..i] + events[i..] == events;
  }

  // ---------------------------------------------------------------------
  // The decoder's state across reads
  // ---------------------------------------------------------------------

  /** The variables of one `processStream` run: the residual buffer
      (`completeMessage`), the accumulated reply (`combinedMessage`), the
      text last shown through `setCombinedMessages`, the payloads parsed so
      far, and whether the loop is still reading. */
  datatype StreamState = StreamState(buffer: string, combined: string, live: string, payloads: seq<string>, ok: bool)

  /** A turn starts with an empty buffer and reply; the shown text is
      whatever the previous turn left. */
  function Start(live: string): StreamState {
    StreamState("", "", live, [], true)
  }

  /** One read: append the chunk to the buffer, keep the unfinished tail,
      decode the complete events until one fails to parse. */
  function Feed(st: StreamState, chunk: string, jsonText: string -> Option<string>): (r: StreamState)
    requires st.ok
    ensures st.payloads <= r.payloads && st.combined <= r.combined
    ensures NoSeparator(r.buffer)
  {
    var text := st.buffer + chunk;
    RestIsUnfinishedTail(text);
    var d := DecodeEvents(Frames(text), jsonText);
    StreamState(Rest(text), st.combined + d.text,
                if d.payloads == [] then st.live else st.combined + d.text,
                st.payloads + d.payloads, d.ok)
  }

  /** Reading a list of chunks; after a failure nothing more is read. */
  function Run(live: string, chunks: seq<string>, jsonText: string -> Option<string>): (r: StreamState)
    ensures NoSeparator(r.buffer)
    decreases |chunks|
  {
    if chunks == [] then Start(live)
    else
      var st := Run(live, chunks[..|chunks| - 1], jsonText);
      if st.ok then Feed(st, chunks[|chunks| - 1], jsonText) else st
  }

  /** The state that the whole received text determines, independently of
      how it was cut into chunks. */
  function Decoded(received: string, live: string, jsonText: string -> Option<string>): StreamState {
    var d := DecodeEvents(Frames(received), jsonText);
    StreamState(Rest(received), d.text, if d.payloads == [] then live else d.text, d.payloads, d.ok)
  }

  lemma StartIsDecodedEmpty(live: string, jsonText: string -> Option<string>)
    ensures Start(live) == Decoded("", live, jsonText)
  {
    assert Split("") == [""];
  }

  /** One read moves the state determined by the received text to the state
      determined by the received text followed by the chunk. */
  lemma FeedExtends(received: string, chunk: string, live: string, jsonText: string -> Option<string>)
    requires Decoded(received, live, jsonText).ok
    ensures Feed(Decoded(received, live, jsonText), chunk, jsonText) == Decoded(received + chunk, live, jsonText)
  {
    var st := Decoded(received, live, jsonText);
    FramesAppend(received, chunk);
    var a := DecodeEvents(Frames(received), jsonText);
    var b := DecodeEvents(Frames(Rest(received) + chunk), jsonText);
    DecodeAppend(Frames(received), Frames(Rest(received) + chunk), jsonText);
    DecodeMeaning(Frames(Rest(received) + chunk), jsonText);
    if b.payloads == [] {
      assert b.text == "";
      assert a.text + b.text == a.text;
      assert a.payloads + b.payloads == a.payloads;
    }
  }

  /** The two states agree on everything the turn makes visible. */
  predicate SameOutput(x: StreamState, y: StreamState) {
    && x.combined == y.combined && x.live == y.live
    && x.payloads == y.payloads && x.ok == y.ok
    && (x.ok ==> x.buffer == y.buffer)
  }

  /** Chunk-boundary invariance: reading any cut of a text into chunks ends
      in the state the text itself determines (the buffer only matters while
      the loop is still reading). */
  lemma {:induction false} RunIsDecodedConcat(live: string, chunks: seq<string>, jsonText: string -> Option<string>)
    ensures SameOutput(Run(live, chunks, jsonText), Decoded(Concat(chunks), live, jsonText))
    ensures Run(live, chunks, jsonText).ok ==> Run(live, chunks, jsonText) == Decoded(Concat(chunks), live, jsonText)
    decreases |chunks|
  {
    if chunks == [] {
      StartIsDecodedEmpty(live, jsonText);
    } else {
      var init := chunks[..|chunks| - 1];
      var last := chunks[|chunks| - 1];
      RunIsDecodedConcat(live, init, jsonText);
      var st := Run(live, init, jsonText);
      if st.ok {
        FeedExtends(Concat(init), last, live, jsonText);
      } else {
        FramesAppend(Concat(init), last);
        DecodeAppend(Frames(Concat(init)), Frames(Rest(Concat(init)) + last), jsonText);
      }
    }
  }

  /** Corollary: two cuts of the same text into chunks decode alike. */
  lemma ChunkBoundaryInvariance(live: string, cut1: seq<string>, cut2: seq<string>, jsonText: string -> Option<string>)
    requires Concat(cut1) == Concat(cut2)
    ensures SameOutput(Run(live, cut1, jsonText), Run(live, cut2, jsonText))
  {
    RunIsDecodedConcat(live, cut1, jsonText);
    RunIsDecodedConcat(live, cut2, jsonText);
  }

  /** No partial emission: text that does not complete an event only grows
      the buffer and decodes nothing. */
  lemma NoPartialEmission(received: string, more: string, live: string, jsonText: string -> Option<string>)
    requires NoSeparator(Rest(received) + more)
    ensures Decoded(received + more, live, jsonText) == Decoded(received, live, jsonText).(buffer := Rest(received) + more)
  {
    FramesAppend(received, more);
    SplitWhole(Rest(received) + more);
    assert Frames(Rest(received) + more) == [];
    assert Frames(received) + [] == Frames(received);
  }
}
