/** The text frames of the dashboard's `/events` stream, and, as their partner, the
    way a client interprets such a stream according to the event-stream format of
    section 9.2 ("Server-sent events") of the WHATWG HTML Living Standard:
    lines end in CR, LF or CRLF; a line starting with a colon is a comment; a
    `field: value` line loses one space after the colon; an `event` field sets
    the event type, each `data` field appends its value and a line feed to the
    data buffer; an empty line dispatches the event (unless the data buffer is
    empty) with the last line feed removed and the type `message` when none was
    given. The `id` and `retry` fields are not written by the dashboard and are
    read as unknown fields here. */
module EventStream {
  import opened Wrappers
  import opened Seqs
  import opened EventQueues

  /** The payload fits on one line of the stream. */
  predicate SingleLine(s: string) {
    '\n' !in s && '\r' !in s
  }

  /** The frame `_serve_sse` writes for one message, as written. */
  function EventFrame(m: Message): string {
    "event: " + m.eventType + "\ndata: " + m.data + "\n\n"
  }

  /** The first frame of every stream, carrying the serialised state and logs. */
  function InitFrame(initData: string): string {
    EventFrame(Message("init", initData))
  }

  /** The comment frame written after 15 idle seconds. */
  const KeepaliveFrame: string := ":keepalive\n\n"

  /** The frame with one `data:` line per line of the payload, which is how the
      event-stream format carries a payload that contains line feeds. */
  function SplitEventFrame(m: Message): string {
    "event: " + m.eventType + "\n" + DataLines(m.data) + "\n"
  }

  function DataLines(d: string): string
    decreases |d|
  {
    var i := FirstIndex(d, '\n');
    if i == |d| then "data: " + d + "\n"
    else "data: " + d[..i] + "\n" + DataLines(d[i + 1..])
  }

  /** Position of the first `c` in `s`, or `|s|` when there is none. */
  function FirstIndex(s: string, c: char): (i: nat)
    ensures i <= |s| && c !in s[..i]
    ensures i < |s| ==> s[i] == c
  {
    if s == [] then 0 else if s[0] == c then 0 else 1 + FirstIndex(s[1..], c)
  }

  // ---------------------------------------------------------------------------
  // Interpreting an event stream
  // ---------------------------------------------------------------------------

  /** The client's state: the line read so far, whether the last character was a
      CR (so that a following LF belongs to the same line end), the event-type
      and data buffers, and the events dispatched so far. */
  datatype Parser = Parser(line: string, afterCR: bool, eventType: string, data: string,
                           events: seq<Message>)

  const Start: Parser := Parser("", false, "", "", [])

  /** Between two events: nothing half-read and both buffers empty. */
  predicate Idle(p: Parser) {
    p.line == "" && !p.afterCR && p.eventType == "" && p.data == ""
  }

  function StripSpace(v: string): string {
    if |v| > 0 && v[0] == ' ' then v[1..] else v
  }

  function Dispatch(p: Parser): Parser {
    if p.data == "" then p.(eventType := "", data := "")
    else
      var d := if p.data[|p.data| - 1] == '\n' then p.data[..|p.data| - 1] else p.data;
      var t := if p.eventType == "" then "message" else p.eventType;
      p.(eventType := "", data := "", events := p.events + [Message(t, d)])
  }

  function ProcessLine(p: Parser, line: string): Parser {
    if line == "" then Dispatch(p)
    else if line[0] == ':' then p
    else
      var i := FirstIndex(line, ':');
      var field := line[..i];
      var value := if i < |line| then StripSpace(line[i + 1..]) else "";
      if field == "event" then p.(eventType := value)
      else if field == "data" then p.(data := p.data + value + "\n")
      else p
  }

  function Step(p: Parser, c: char): Parser {
    if c == '\r' then ProcessLine(p.(line := "", afterCR := true), p.line)
    else if c == '\n' then
      (if p.afterCR then p.(afterCR := false) else ProcessLine(p.(line := ""), p.line))
    else p.(line := p.line + [c], afterCR := false)
  }

  function Feed(p: Parser, s: string): Parser
    decreases |s|
  {
    if s == [] then p else Feed(Step(p, s[0]), s[1..])
  }

  /** The events a client dispatches for a whole stream. */
  function Parse(stream: string): seq<Message> {
    Feed(Start, stream).events
  }

  // ---------------------------------------------------------------------------
  // Reading frames back
  // ---------------------------------------------------------------------------

  lemma {:induction false} FeedAppend(p: Parser, a: string, b: string)
    ensures Feed(p, a + b) == Feed(Feed(p, a), b)
    decreases |a|
  {
    if a != [] {
      assert (a + b)[0] == a[0];
      assert (a + b)[1..] == a[1..] + b;
      FeedAppend(Step(p, a[0]), a[1..], b);
    } else {
      assert a + b == b;
    }
  }

  /** Characters other than line ends only extend the current line. */
  lemma {:induction false} FeedText(p: Parser, w: string)
    requires SingleLine(w)
    ensures Feed(p, w) == if w == [] then p else p.(line := p.line + w, afterCR := false)
    decreases |w|
  {
    if w != [] {
      assert SingleLine(w[1..]) by {
        assert forall k :: 0 <= k < |w[1..]| ==> w[1..][k] == w[k + 1];
      }
      FeedText(Step(p, w[0]), w[1..]);
      assert p.line + [w[0]] + w[1..] == p.line + w;
    }
  }

  /** A line ended by LF is processed as one line. */
  lemma FeedLine(p: Parser, w: string)
    requires SingleLine(w) && !p.afterCR
    ensures Feed(p, w + "\n") == ProcessLine(p.(line := ""), p.line + w)
  {
    FeedAppend(p, w, "\n");
    FeedText(p, w);
    assert p.line + [] == p.line;
  }

  lemma {:induction false} FirstIndexAt(s: string, c: char, k: nat)
    requires k < |s| && s[k] == c && c !in s[..k]
    ensures FirstIndex(s, c) == k
  {
    if k > 0 {
      assert s[0] == s[..k][0];
      assert s[1..][..k - 1] == s[..k][1..];
      FirstIndexAt(s[1..], c, k - 1);
    }
  }

  /** A `name: value` line sets the field `name` to exactly `value`. */
  lemma FieldLine(name: string, value: string)
    requires ':' !in name
    ensures var line := name + ": " + value;
      line != "" &&
      (line[0] == ':' <==> name == "") &&
      var i := FirstIndex(line, ':');
      line[..i] == name && i < |line| && StripSpace(line[i + 1..]) == value
  {
    var line := name + ": " + value;
    assert line[..|name|] == name;
    FirstIndexAt(line, ':', |name|);
    assert line[|name| + 1..] == " " + value;
  }

  /** A `name: value` line ended by a line feed is read as the field `name`
      set to `value`: `event` and `data` are acted on, any other name ignored. */
  lemma FeedFieldLine(p: Parser, name: string, value: string)
    requires p.line == "" && !p.afterCR
    requires name != "" && ':' !in name && SingleLine(name) && SingleLine(value)
    ensures Feed(p, name + ": " + value + "\n") ==
      if name == "event" then p.(eventType := value)
      else if name == "data" then p.(data := p.data + value + "\n")
      else p
  {
    var line := name + ": " + value;
    FeedLine(p, line);
    FieldLine(name, value);
    assert p.line + line == line;
  }

  /** An `event: t` line sets the event type to `t`. */
  lemma FeedEventLine(p: Parser, t: string)
    requires p.line == "" && !p.afterCR && SingleLine(t)
    ensures Feed(p, "event: " + t + "\n") == p.(eventType := t)
  {
    FeedFieldLine(p, "event", t);
    assert "event" + ": " == "event: ";
  }

  /** A `data: d` line appends `d` and a line feed to the data buffer. */
  lemma FeedDataLine(p: Parser, d: string)
    requires p.line == "" && !p.afterCR && SingleLine(d)
    ensures Feed(p, "data: " + d + "\n") == p.(data := p.data + d + "\n")
  {
    FeedFieldLine(p, "data", d);
    assert "data" + ": " == "data: ";
  }

  /** The empty line that ends a frame dispatches the buffered event. */
  lemma FeedEndOfEvent(p: Parser, t: string, d: string)
    requires Idle(p) && t != ""
    ensures Feed(p.(eventType := t, data := d + "\n"), "\n") == p.(events := p.events + [Message(t, d)])
  {
    var q := p.(eventType := t, data := d + "\n");
    FeedLine(q, "");
    assert "" + "\n" == "\n";
    assert (d + "\n")[..|d + "\n"| - 1] == d;
  }

  /** A comment line changes nothing. */
  lemma FeedCommentLine(p: Parser, text: string)
    requires p.line == "" && !p.afterCR && SingleLine(text)
    ensures Feed(p, ":" + text + "\n") == p
  {
    assert SingleLine(":" + text) by {
      assert forall k :: 1 <= k < |":" + text| ==> (":" + text)[k] == text[k - 1];
    }
    FeedLine(p, ":" + text);
    assert p.line + (":" + text) == ":" + text;
  }

  /** What a frame may carry and still be read back: a non-empty one-line event
      type and a payload without carriage returns. */
  predicate Framable(m: Message) {
    m.eventType != "" && SingleLine(m.eventType) && '\r' !in m.data
  }

  /** A payload with a line feed is framed as its first line followed by the
      frame lines of the rest. */
  lemma DataLinesSplit(d: string)
    requires FirstIndex(d, '\n') < |d|
    ensures var i := FirstIndex(d, '\n');
      DataLines(d) == ("data: " + d[..i] + "\n") + DataLines(d[i + 1..]) &&
      d == d[..i] + "\n" + d[i + 1..]
  {
    var i := FirstIndex(d, '\n');
    PayloadCut(d, i);
  }

  lemma PayloadCut(d: string, i: nat)
    requires i < |d| && d[i] == '\n'
    ensures d == d[..i] + "\n" + d[i + 1..]
  {
    assert d == d[..i] + [d[i]] + d[i + 1..];
  }

  /** The pieces of a payload cut at a line feed carry no line ends of their own
      and no carriage return. */
  lemma FirstLineOf(d: string)
    requires '\r' !in d
    ensures var i := FirstIndex(d, '\n');
      SingleLine(d[..i]) && '\r' !in d[if i < |d| then i + 1 else |d|..]
  {
    var i := FirstIndex(d, '\n');
    NotInParts(d, '\r', i);
    if i < |d| {
      NotInParts(d, '\r', i + 1);
    }
  }

  lemma DataBufferGrows(buf: string, first: string, rest: string)
    ensures buf + first + "\n" + rest + "\n" == buf + (first + "\n" + rest) + "\n"
  {
  }

  /** Each `data:` line adds one line of the payload, so the data buffer ends up
      holding the whole payload followed by a line feed. */
  lemma {:induction false} DataLinesAccumulate(p: Parser, d: string)
    requires p.line == "" && !p.afterCR && '\r' !in d
    ensures Feed(p, DataLines(d)) == p.(data := p.data + d + "\n")
    decreases |d|
  {
    var i := FirstIndex(d, '\n');
    var first := d[..i];
    FirstLineOf(d);
    FeedDataLine(p, first);
    if i < |d| {
      var rest := d[i + 1..];
      var p1 := p.(data := p.data + first + "\n");
      DataLinesSplit(d);
      DataLinesAccumulate(p1, rest);
      FeedAppend(p, "data: " + first + "\n", DataLines(rest));
      DataBufferGrows(p.data, first, rest);
    } else {
      assert first == d;
    }
  }

  /** A client reads a corrected frame back as exactly the message it carries. */
  lemma SplitFrameDelivers(p: Parser, m: Message)
    requires Idle(p) && Framable(m)
    ensures Feed(p, SplitEventFrame(m)) == p.(events := p.events + [m])
  {
    var eventLine := "event: " + m.eventType + "\n";
    var p1 := p.(eventType := m.eventType);
    var p2 := p.(eventType := m.eventType, data := m.data + "\n");
    assert Feed(p, eventLine) == p1 by {
      FeedEventLine(p, m.eventType);
    }
    assert Feed(p1, DataLines(m.data)) == p2 by {
      DataLinesAccumulate(p1, m.data);
      assert "" + m.data + "\n" == m.data + "\n";
    }
    assert Feed(p2, "\n") == p.(events := p.events + [m]) by {
      FeedEndOfEvent(p, m.eventType, m.data);
    }
    assert SplitEventFrame(m) == eventLine + DataLines(m.data) + "\n";
    FeedAppend(p, eventLine + DataLines(m.data), "\n");
    FeedAppend(p, eventLine, DataLines(m.data));
  }

  /** The frame as written is three lines: the event type, the data, and the
      empty line. */
  lemma EventFrameLines(m: Message)
    ensures EventFrame(m) == ("event: " + m.eventType + "\n") + ("data: " + m.data + "\n") + "\n"
  {
    assert "\ndata: " == "\n" + "data: ";
    assert "\n\n" == "\n" + "\n";
  }

  /** For a one-line payload the corrected frame is byte for byte the frame the
      source writes; every JSON payload (`init` and `state`) is one line. */
  lemma SplitFrameAgrees(m: Message)
    requires SingleLine(m.data)
    ensures SplitEventFrame(m) == EventFrame(m)
  {
    assert FirstIndex(m.data, '\n') == |m.data|;
  }

  /** The frame as written reads back as its message whenever the payload is
      one line, which is the case for the `init` and `state` frames. */
  lemma EventFrameDelivers(p: Parser, m: Message)
    requires Idle(p) && Framable(m) && SingleLine(m.data)
    ensures Feed(p, EventFrame(m)) == p.(events := p.events + [m])
  {
    SplitFrameAgrees(m);
    SplitFrameDelivers(p, m);
  }

  /** The stream's first frame reads back as one `init` event. */
  lemma InitFrameParses(initData: string)
    requires SingleLine(initData)
    ensures Parse(InitFrame(initData)) == [Message("init", initData)]
  {
    EventFrameDelivers(Start, Message("init", initData));
  }

  /** A keepalive dispatches nothing and leaves an idle client idle. */
  lemma KeepaliveIgnored(p: Parser)
    requires Idle(p)
    ensures Feed(p, KeepaliveFrame) == p
  {
    var comment := ":" + "keepalive" + "\n";
    assert Feed(p, comment) == p by {
      FeedCommentLine(p, "keepalive");
    }
    assert Feed(p, "\n") == p by {
      FeedLine(p, "");
      assert "" + "\n" == "\n";
    }
    assert KeepaliveFrame == comment + "\n";
    FeedAppend(p, comment, "\n");
  }

  // ---------------------------------------------------------------------------
  // A whole stream
  // ---------------------------------------------------------------------------

  /** The frames written after the `init` frame, as written: one per message
      taken from the queue, and a keepalive for every wait that timed out
      (`None`). */
  function Transcript(outs: seq<Option<Message>>): string
    decreases |outs|
  {
    if outs == [] then "" else OutputFrame(outs[0]) + Transcript(outs[1..])
  }

  /** The frame one turn of the stream loop writes. */
  function OutputFrame(o: Option<Message>): string {
    match o
    case Some(m) => EventFrame(m)
    case None => KeepaliveFrame
  }

  /** The same transcript with the corrected frame for every message. */
  function CorrectedTranscript(outs: seq<Option<Message>>): string
    decreases |outs|
  {
    if outs == [] then "" else CorrectedOutputFrame(outs[0]) + CorrectedTranscript(outs[1..])
  }

  function CorrectedOutputFrame(o: Option<Message>): string {
    match o
    case Some(m) => SplitEventFrame(m)
    case None => KeepaliveFrame
  }

  function OutputMessages(o: Option<Message>): seq<Message> {
    match o
    case Some(m) => [m]
    case None => []
  }

  /** The messages among `outs`, in order. */
  function Received(outs: seq<Option<Message>>): seq<Message>
    decreases |outs|
  {
    if outs == [] then [] else OutputMessages(outs[0]) + Received(outs[1..])
  }

  /** One frame of a transcript: a message frame dispatches its message, a
      keepalive nothing. */
  lemma CorrectedFrameOfOutput(p: Parser, o: Option<Message>)
    requires Idle(p) && (o.Some? ==> Framable(o.value))
    ensures Feed(p, CorrectedOutputFrame(o)) == p.(events := p.events + OutputMessages(o))
  {
    if o.Some? {
      MessageOutputDelivers(p, o.value);
    } else {
      KeepaliveOutputIgnored(p);
    }
  }

  lemma MessageOutputDelivers(p: Parser, m: Message)
    requires Idle(p) && Framable(m)
    ensures Feed(p, CorrectedOutputFrame(Some(m))) == p.(events := p.events + OutputMessages(Some(m)))
  {
    SplitFrameDelivers(p, m);
  }

  lemma KeepaliveOutputIgnored(p: Parser)
    requires Idle(p)
    ensures Feed(p, CorrectedOutputFrame(None)) == p.(events := p.events + OutputMessages(None))
  {
    assert CorrectedOutputFrame(None) == KeepaliveFrame && OutputMessages(None) == [];
    KeepaliveIgnored(p);
    RightUnit(p.events);
  }

  /** Every message among `outs` can be framed and read back. */
  predicate AllFramable(outs: seq<Option<Message>>) {
    forall k :: 0 <= k < |outs| && outs[k].Some? ==> Framable(outs[k].value)
  }

  lemma CorrectedTranscriptStep(p: Parser, outs: seq<Option<Message>>)
    requires Idle(p) && outs != [] && AllFramable(outs)
    ensures AllFramable(outs[1..])
    ensures Feed(p, CorrectedTranscript(outs)) == Feed(p.(events := p.events + OutputMessages(outs[0])), CorrectedTranscript(outs[1..]))
  {
    assert forall k :: 0 <= k < |outs[1..]| ==> outs[1..][k] == outs[k + 1];
    CorrectedFrameOfOutput(p, outs[0]);
    FeedAppend(p, CorrectedOutputFrame(outs[0]), CorrectedTranscript(outs[1..]));
  }

  lemma ReceivedStep(p: Parser, outs: seq<Option<Message>>)
    requires outs != []
    ensures var p1 := p.(events := p.events + OutputMessages(outs[0]));
      p1.(events := p1.events + Received(outs[1..])) == p.(events := p.events + Received(outs))
  {
    assert Received(outs) == OutputMessages(outs[0]) + Received(outs[1..]);
    assert p.events + OutputMessages(outs[0]) + Received(outs[1..]) == p.events + Received(outs);
  }

  lemma {:induction false} CorrectedTranscriptDelivers(p: Parser, outs: seq<Option<Message>>)
    requires Idle(p) && AllFramable(outs)
    ensures Feed(p, CorrectedTranscript(outs)) == p.(events := p.events + Received(outs))
    decreases |outs|
  {
    if outs == [] {
      assert p.events + [] == p.events;
    } else {
      var p1 := p.(events := p.events + OutputMessages(outs[0]));
      CorrectedTranscriptStep(p, outs);
      CorrectedTranscriptDelivers(p1, outs[1..]);
      ReceivedStep(p, outs);
    }
  }

  /** With the corrected frame, a client of the `/events` stream sees the `init`
      event and then every message its queue handed out, in the order the queue
      handed them out, whatever line feeds the payloads hold; keepalives add
      nothing. */
  lemma CorrectedStreamParses(initData: string, outs: seq<Option<Message>>)
    requires SingleLine(initData) && AllFramable(outs)
    ensures Parse(InitFrame(initData) + CorrectedTranscript(outs)) == [Message("init", initData)] + Received(outs)
  {
    var p1 := Start.(events := [Message("init", initData)]);
    assert Feed(Start, InitFrame(initData)) == p1 by {
      EventFrameDelivers(Start, Message("init", initData));
    }
    assert Feed(p1, CorrectedTranscript(outs)) == p1.(events := p1.events + Received(outs)) by {
      CorrectedTranscriptDelivers(p1, outs);
    }
    FeedAppend(Start, InitFrame(initData), CorrectedTranscript(outs));
  }

  /** Every message among `outs` has a one-line payload. */
  predicate AllSingleLine(outs: seq<Option<Message>>) {
    forall k :: 0 <= k < |outs| && outs[k].Some? ==> SingleLine(outs[k].value.data)
  }

  /** On one-line payloads the stream as written and the corrected stream are
      the same text. */
  lemma {:induction false} TranscriptsAgree(outs: seq<Option<Message>>)
    requires AllSingleLine(outs)
    ensures Transcript(outs) == CorrectedTranscript(outs)
    decreases |outs|
  {
    if outs != [] {
      assert forall k :: 0 <= k < |outs[1..]| ==> outs[1..][k] == outs[k + 1];
      TranscriptsAgree(outs[1..]);
      if outs[0].Some? {
        SplitFrameAgrees(outs[0].value);
      }
    }
  }

  /** The stream as written: a client sees the `init` event and then every
      message its queue handed out, in the order the queue handed them out,
      as long as every payload is one line; keepalives add nothing. */
  lemma StreamParses(initData: string, outs: seq<Option<Message>>)
    requires SingleLine(initData) && AllFramable(outs) && AllSingleLine(outs)
    ensures Parse(InitFrame(initData) + Transcript(outs)) == [Message("init", initData)] + Received(outs)
  {
    TranscriptsAgree(outs);
    CorrectedStreamParses(initData, outs);
  }

  // ---------------------------------------------------------------------------
  // A log line that spans lines
  // ---------------------------------------------------------------------------

  /** The frame as written for a log line of two lines, such as a message
      followed by a traceback: the client receives only the first line, because
      the second arrives as a line of its own and is read as a field other than
      `event` or `data` (or as a comment), which is ignored. */
  lemma MultiLineLogIsCut(first: string, second: string)
    requires SingleLine(first) && SingleLine(second) && second != ""
    requires second[..FirstIndex(second, ':')] != "event"
    requires second[..FirstIndex(second, ':')] != "data"
    ensures Parse(EventFrame(Message("log", first + "\n" + second))) == [Message("log", first)]
  {
    MultiLineEventIsCut(Start, "log", first, second);
  }

  lemma MultiLineEventIsCut(p: Parser, t: string, first: string, second: string)
    requires Idle(p) && t != "" && SingleLine(t)
    requires SingleLine(first) && SingleLine(second) && second != ""
    requires second[..FirstIndex(second, ':')] != "event"
    requires second[..FirstIndex(second, ':')] != "data"
    ensures Feed(p, EventFrame(Message(t, first + "\n" + second))) == p.(events := p.events + [Message(t, first)])
  {
    var p1 := p.(eventType := t);
    var p2 := p.(eventType := t, data := first + "\n");
    var p3 := p.(events := p.events + [Message(t, first)]);
    MultiLineFrameLines(t, first, second);
    FeedEventLine(p, t);
    assert Feed(p1, "data: " + first + "\n") == p2 by {
      FeedDataLine(p1, first);
      assert p1.data + first + "\n" == first + "\n";
    }
    UnknownLineIgnored(p2, second);
    FeedEndOfEvent(p, t, first);
    FeedFourParts(p, "event: " + t + "\n", "data: " + first + "\n", second + "\n", "\n", p1, p2, p2, p3);
  }

  /** The frame as written for a two-line log line whose second line is itself
      an `event:` line: the client dispatches the first line under the type the
      second line names, so a listener for `log` events never sees it. */
  lemma MultiLineLogIsRetyped(first: string, u: string)
    requires SingleLine(first) && SingleLine(u) && u != ""
    ensures Parse(EventFrame(Message("log", first + "\n" + "event: " + u))) == [Message(u, first)]
  {
    MultiLineEventIsRetyped(Start, "log", first, u);
  }

  lemma MultiLineEventIsRetyped(p: Parser, t: string, first: string, u: string)
    requires Idle(p) && SingleLine(t) && SingleLine(first) && SingleLine(u) && u != ""
    ensures Feed(p, EventFrame(Message(t, first + "\n" + "event: " + u))) == p.(events := p.events + [Message(u, first)])
  {
    var p1 := p.(eventType := t);
    var p2 := p.(eventType := t, data := first + "\n");
    var p3 := p.(eventType := u, data := first + "\n");
    var p4 := p.(events := p.events + [Message(u, first)]);
    assert first + "\n" + "event: " + u == first + "\n" + ("event: " + u);
    MultiLineFrameLines(t, first, "event: " + u);
    FeedEventLine(p, t);
    assert Feed(p1, "data: " + first + "\n") == p2 by {
      FeedDataLine(p1, first);
      assert p1.data + first + "\n" == first + "\n";
    }
    FeedEventLine(p2, u);
    FeedEndOfEvent(p, u, first);
    FeedFourParts(p, "event: " + t + "\n", "data: " + first + "\n", "event: " + u + "\n", "\n", p1, p2, p3, p4);
  }

  /** The frame as written for a two-line payload whose second line is itself a
      `data:` line: the client receives both lines, but without the `data: ` of
      the second. */
  lemma MultiLineEventLosesDataPrefix(p: Parser, t: string, first: string, d: string)
    requires Idle(p) && t != "" && SingleLine(t) && SingleLine(first) && SingleLine(d)
    ensures Feed(p, EventFrame(Message(t, first + "\n" + "data: " + d))) == p.(events := p.events + [Message(t, first + "\n" + d)])
  {
    var p1 := p.(eventType := t);
    var p2 := p.(eventType := t, data := first + "\n");
    var p3 := p.(eventType := t, data := first + "\n" + d + "\n");
    var p4 := p.(events := p.events + [Message(t, first + "\n" + d)]);
    assert first + "\n" + "data: " + d == first + "\n" + ("data: " + d);
    MultiLineFrameLines(t, first, "data: " + d);
    FeedEventLine(p, t);
    assert Feed(p1, "data: " + first + "\n") == p2 by {
      FeedDataLine(p1, first);
      assert p1.data + first + "\n" == first + "\n";
    }
    FeedDataLine(p2, d);
    FeedEndOfEvent(p, t, first + "\n" + d);
    FeedFourParts(p, "event: " + t + "\n", "data: " + first + "\n", "data: " + d + "\n", "\n", p1, p2, p3, p4);
  }

  /** The frame as written for a two-line payload is four lines. */
  lemma MultiLineFrameLines(t: string, first: string, second: string)
    ensures EventFrame(Message(t, first + "\n" + second)) ==
            ("event: " + t + "\n") + ("data: " + first + "\n") + (second + "\n") + "\n"
  {
    EventFrameLines(Message(t, first + "\n" + second));
    assert "data: " + (first + "\n" + second) + "\n" == ("data: " + first + "\n") + (second + "\n");
  }

  /** A line whose field is neither `event` nor `data` (or a comment) changes
      nothing. */
  lemma UnknownLineIgnored(p: Parser, line: string)
    requires p.line == "" && !p.afterCR && SingleLine(line) && line != ""
    requires line[..FirstIndex(line, ':')] != "event"
    requires line[..FirstIndex(line, ':')] != "data"
    ensures Feed(p, line + "\n") == p
  {
    FeedLine(p, line);
    assert "" + line == line;
  }

  /** Reading four pieces one after another is reading their concatenation. */
  lemma FeedFourParts(p: Parser, a: string, b: string, c: string, d: string,
                      pa: Parser, pb: Parser, pc: Parser, pd: Parser)
    requires Feed(p, a) == pa && Feed(pa, b) == pb && Feed(pb, c) == pc && Feed(pc, d) == pd
    ensures Feed(p, a + b + c + d) == pd
  {
    FeedAppend(p, a + b + c, d);
    FeedAppend(p, a + b, c);
    FeedAppend(p, a, b);
  }

  /** The corrected frame delivers every log line whole. */
  lemma MultiLineLogDelivered(line: string)
    requires '\r' !in line
    ensures Parse(SplitEventFrame(Message("log", line))) == [Message("log", line)]
  {
    SplitFrameDelivers(Start, Message("log", line));
  }
}
