/** services/open_ai_service.py, `ask_question_stream_response`: relays a
    chat-completion token stream as `start`, `delta`* and `end` frames, with a
    heartbeat comment whenever more than 15 seconds have passed since the
    last one, and an `error` frame before `end` when the upstream raises.
    The upstream stream is replaced by its chunks and the exception it raises
    after them, if any; the clock by the readings the code takes. */
module OpenAiService {
  import opened Base
  import opened Json
  import opened EventStream
  import opened Common

  /** The clock readings taken before the first chunk: for the response id,
      for the `created` field, and as the initial heartbeat time. */
  datatype Readings = Readings(idAt: real, createdAt: real, heartbeatAt: real)

  /** One streamed chunk: the `content` of its delta (`None` when absent),
      the clock reading taken after it is relayed, and the reading stored as
      the new heartbeat time if a heartbeat is sent. */
  datatype Chunk = Chunk(content: Option<string>, now: real, resetAt: real)

  /** The `finish_reason` of the `end` frame. */
  datatype Finish = Stop | Errored

  /** The frames of the completion stream, before rendering. */
  datatype CompletionFrame =
    | Start(id: string, model: string, created: int)
    | Delta(content: string)
    | Ping
    | End(reason: Finish)
    | ErrorFrame(message: string)

  /** A heartbeat is due once strictly more than this many seconds have
      passed since the last one. */
  const HeartbeatInterval: real := 15.0

  /** Python's `int()` of a float: truncation toward zero. */
  function Trunc(x: real): (r: int)
    ensures x >= 0.0 ==> r as real <= x < r as real + 1.0
    ensures x < 0.0 ==> r as real - 1.0 < x <= r as real
  {
    if x >= 0.0 then x.Floor else -((-x).Floor)
  }

  /** `f"resp_{int(time.time() * 1000)}"`: the response id, from a reading
      in seconds turned into whole milliseconds. For a reading at or after
      the epoch the suffix is all digits and reads back as the number of
      whole milliseconds. */
  function ResponseId(t: real): (r: string)
    ensures StartsWith(r, "resp_") && |r| > |"resp_"|
    ensures t >= 0.0 ==>
      && (forall k | |"resp_"| <= k < |r| :: '0' <= r[k] <= '9')
      && DigitsValue(r[|"resp_"|..]) as real <= t * 1000.0 < DigitsValue(r[|"resp_"|..]) as real + 1.0
  {
    var millis := Trunc(t * 1000.0);
    var r := "resp_" + IntText(millis);
    if millis >= 0 then
      NatTextValue(millis);
      assert r[|"resp_"|..] == NatText(millis);
      r
    else r
  }

  function FinishText(r: Finish): string {
    match r
    case Stop => "stop"
    case Errored => "error"
  }

  /** The event name of a frame other than a heartbeat. */
  function EventName(f: CompletionFrame): string
    requires f != Ping
  {
    match f
    case Start(_, _, _) => "start"
    case Delta(_) => "delta"
    case End(_) => "end"
    case ErrorFrame(_) => "error"
  }

  /** The JSON payload of a frame other than a heartbeat. */
  function Payload(f: CompletionFrame): Value
    requires f != Ping
  {
    match f
    case Start(id, model, created) =>
      Obj([Member("id", Str(id)), Member("model", Str(model)), Member("created", Int(created))])
    case Delta(s) => Obj([Member("index", Int(0)), Member("content", Str(s))])
    case End(r) => Obj([Member("finish_reason", Str(FinishText(r)))])
    case ErrorFrame(m) => Obj([Member("message", Str(m))])
  }

  /** The text of a frame: `heartbeat()` for a heartbeat, `sse` of its name
      and payload for any other frame. */
  function Render(f: CompletionFrame): string {
    if f == Ping then Heartbeat() else Sse(EventName(f), Payload(f))
  }

  function RenderAll(fs: seq<CompletionFrame>): seq<string> {
    Map(Render, fs)
  }

  /** How the stream ends once the chunks run out: `end` with `stop`, or an
      `error` frame and `end` with `error` when the upstream raised. */
  function Ending(failure: Option<string>): seq<CompletionFrame> {
    match failure
    case None => [End(Stop)]
    case Some(m) => [ErrorFrame(m), End(Errored)]
  }

  /** The `try` block: the loop over the chunks, `last` being the variable
      `last_heartbeat`. */
  function Loop(chunks: seq<Chunk>, last: real, failure: Option<string>): seq<CompletionFrame> {
    if chunks == [] then Ending(failure)
    else
      var c := chunks[0];
      var beat := c.now - last > HeartbeatInterval;
      (if HasText(c.content) then [Delta(c.content.value)] else [])
      + (if beat then [Ping] else [])
      + Loop(chunks[1..], if beat then c.resetAt else last, failure)
  }

  /** The frames of `ask_question_stream_response`, before rendering. */
  function Plan(model: string, readings: Readings, chunks: seq<Chunk>, failure: Option<string>): seq<CompletionFrame> {
    [Start(ResponseId(readings.idAt), model, Trunc(readings.createdAt))]
    + Loop(chunks, readings.heartbeatAt, failure)
  }

  /** `ask_question_stream_response(prompt)` with model name `model`, against
      an upstream that yields `chunks` and then raises `failure`, if any. */
  function AskQuestionStreamResponse(model: string, readings: Readings, chunks: seq<Chunk>, failure: Option<string>): seq<string> {
    RenderAll(Plan(model, readings, chunks, failure))
  }

  // ---------------------------------------------------------------------
  // Reference definitions

  /** The frames relayed for one chunk when the last heartbeat was at
      `lastBeat`: its text, if it has any, then a heartbeat if one is due. */
  function Segment(c: Chunk, lastBeat: real): seq<CompletionFrame> {
    (if HasText(c.content) then [Delta(c.content.value)] else [])
    + (if c.now - lastBeat > HeartbeatInterval then [Ping] else [])
  }

  /** The time of the last heartbeat once `chunks` have been relayed,
      starting from `start`. */
  function LastBeat(start: real, chunks: seq<Chunk>): real {
    if chunks == [] then start
    else
      var before := LastBeat(start, chunks[..|chunks| - 1]);
      var c := chunks[|chunks| - 1];
      if c.now - before > HeartbeatInterval then c.resetAt else before
  }

  /** The frames relayed for `chunks`, chunk after chunk, each chunk's
      heartbeat decided by the last heartbeat before it. */
  function Body(start: real, chunks: seq<Chunk>): seq<CompletionFrame> {
    if chunks == [] then []
    else
      var before := chunks[..|chunks| - 1];
      Body(start, before) + Segment(chunks[|chunks| - 1], LastBeat(start, before))
  }

  /** The non-empty chunk contents, in order. */
  function Texts(chunks: seq<Chunk>): seq<string> {
    if chunks == [] then []
    else (if HasText(chunks[0].content) then [chunks[0].content.value] else []) + Texts(chunks[1..])
  }

  /** The contents of the `delta` frames among `fs`, in order. */
  function Deltas(fs: seq<CompletionFrame>): seq<string> {
    if fs == [] then []
    else (if fs[0].Delta? then [fs[0].content] else []) + Deltas(fs[1..])
  }

  /** The text a client reassembles from the chunks: every content in
      order, a missing one counting as empty. */
  function StreamedText(chunks: seq<Chunk>): string {
    if chunks == [] then ""
    else (if chunks[0].content.Some? then chunks[0].content.value else "") + StreamedText(chunks[1..])
  }

  // ---------------------------------------------------------------------
  // Properties

  lemma LoopStep(chunks: seq<Chunk>, last: real, failure: Option<string>)
    requires chunks != []
    ensures var c := chunks[0];
      Loop(chunks, last, failure) ==
        Segment(c, last) + Loop(chunks[1..], if c.now - last > HeartbeatInterval then c.resetAt else last, failure)
  {
  }

  /** Relaying one more chunk appends its segment and moves the last
      heartbeat only when one is due. */
  lemma BodySnoc(start: real, chunks: seq<Chunk>, j: nat)
    requires 0 < j <= |chunks|
    ensures var before := chunks[..j - 1];
      var c := chunks[j - 1];
      && Body(start, chunks[..j]) == Body(start, before) + Segment(c, LastBeat(start, before))
      && LastBeat(start, chunks[..j]) ==
        (if c.now - LastBeat(start, before) > HeartbeatInterval then c.resetAt else LastBeat(start, before))
  {
    assert chunks[..j][..j - 1] == chunks[..j - 1];
    assert chunks[..j][j - 1] == chunks[j - 1];
  }

  lemma {:induction false} LoopPrefix(chunks: seq<Chunk>, start: real, failure: Option<string>, j: nat)
    requires j <= |chunks|
    ensures Loop(chunks, start, failure) ==
      Body(start, chunks[..j]) + Loop(chunks[j..], LastBeat(start, chunks[..j]), failure)
  {
    if j == 0 {
      assert chunks[..0] == [];
      assert chunks[0..] == chunks;
    } else {
      LoopPrefix(chunks, start, failure, j - 1);
      var before := chunks[..j - 1];
      var last := LastBeat(start, before);
      var c := chunks[j - 1];
      var next := if c.now - last > HeartbeatInterval then c.resetAt else last;
      assert Loop(chunks[j - 1..], last, failure) == Segment(c, last) + Loop(chunks[j..], next, failure) by {
        assert chunks[j - 1..][0] == c;
        assert chunks[j - 1..][1..] == chunks[j..];
        LoopStep(chunks[j - 1..], last, failure);
      }
      BodySnoc(start, chunks, j);
      AppendAssoc(Body(start, before), Segment(c, last), Loop(chunks[j..], next, failure));
    }
  }

  /** The whole completion stream: `start` first, carrying the response id,
      the model and the creation time; then, chunk after chunk, a `delta`
      for every chunk with text and a heartbeat whenever more than 15
      seconds have passed since the last one; then `end` with `stop`, or an
      `error` frame and `end` with `error` when the upstream raised. */
  lemma PlanShape(model: string, readings: Readings, chunks: seq<Chunk>, failure: Option<string>)
    ensures Plan(model, readings, chunks, failure) ==
      [Start(ResponseId(readings.idAt), model, Trunc(readings.createdAt))]
      + Body(readings.heartbeatAt, chunks) + Ending(failure)
  {
    LoopPrefix(chunks, readings.heartbeatAt, failure, |chunks|);
    assert chunks[..|chunks|] == chunks;
    assert chunks[|chunks|..] == [];
  }

  /** Between `start` and the ending only `delta` frames and heartbeats are
      sent. */
  lemma {:induction false} BodyFrames(start: real, chunks: seq<Chunk>)
    ensures forall i | 0 <= i < |Body(start, chunks)| ::
      Body(start, chunks)[i].Delta? || Body(start, chunks)[i] == Ping
  {
    if chunks != [] {
      BodyFrames(start, chunks[..|chunks| - 1]);
    }
  }

  /** The completion stream is `start`, the body and the ending. */
  lemma PlanLength(model: string, readings: Readings, chunks: seq<Chunk>, failure: Option<string>)
    ensures var p := Plan(model, readings, chunks, failure);
      |p| == 1 + |Body(readings.heartbeatAt, chunks)| + |Ending(failure)| && p[0].Start?
  {
    PlanShape(model, readings, chunks, failure);
  }

  /** Frame `i` after `start` is a body frame or an ending frame. */
  lemma PlanAt(model: string, readings: Readings, chunks: seq<Chunk>, failure: Option<string>, i: nat)
    requires 0 < i < |Plan(model, readings, chunks, failure)|
    ensures |Plan(model, readings, chunks, failure)| == 1 + |Body(readings.heartbeatAt, chunks)| + |Ending(failure)|
    ensures var b := Body(readings.heartbeatAt, chunks);
      Plan(model, readings, chunks, failure)[i] ==
        if i <= |b| then b[i - 1] else Ending(failure)[i - 1 - |b|]
  {
    PlanShape(model, readings, chunks, failure);
  }

  /** The frames as a whole: `start` exactly once and first, `end` exactly
      once and last; an `error` frame exactly when the upstream raised, and
      then right before `end`, whose reason is `error`; on success the
      reason is `stop`. Heartbeats thus fall strictly between `start` and
      `end`. */
  lemma Framing(model: string, readings: Readings, chunks: seq<Chunk>, failure: Option<string>)
    ensures var p := Plan(model, readings, chunks, failure);
      && |p| >= 2
      && p[0].Start? && (forall i | 0 < i < |p| :: !p[i].Start?)
      && p[|p| - 1].End? && (forall i | 0 <= i < |p| - 1 :: !p[i].End?)
      && (p[|p| - 1] == End(Stop) <==> failure.None?)
      && ((exists i | 0 <= i < |p| :: p[i].ErrorFrame?) <==> failure.Some?)
      && (failure.Some? ==> p[|p| - 2..] == [ErrorFrame(failure.value), End(Errored)])
  {
    PlanLength(model, readings, chunks, failure);
    MiddleFrames(model, readings, chunks, failure);
    LastFrames(model, readings, chunks, failure);
  }

  /** No frame after the first is `start`, none before the last is `end`,
      and an `error` frame only appears after a failure. */
  lemma MiddleFrames(model: string, readings: Readings, chunks: seq<Chunk>, failure: Option<string>)
    ensures var p := Plan(model, readings, chunks, failure);
      forall i | 0 < i < |p| :: !p[i].Start? && (i < |p| - 1 ==> !p[i].End?) && (p[i].ErrorFrame? ==> failure.Some?)
  {
    var p := Plan(model, readings, chunks, failure);
    var b := Body(readings.heartbeatAt, chunks);
    forall i | 0 < i < |p|
      ensures !p[i].Start? && (i < |p| - 1 ==> !p[i].End?) && (p[i].ErrorFrame? ==> failure.Some?)
    {
      PlanAt(model, readings, chunks, failure, i);
      if i <= |b| {
        BodyFrames(readings.heartbeatAt, chunks);
      }
    }
  }

  /** The last frame is the last frame of the ending, and after a failure
      the last two frames are the ending. */
  lemma LastFrames(model: string, readings: Readings, chunks: seq<Chunk>, failure: Option<string>)
    ensures var p := Plan(model, readings, chunks, failure);
      && |p| >= 2
      && p[|p| - 1] == (if failure.None? then End(Stop) else End(Errored))
      && (failure.Some? ==> p[|p| - 2..] == [ErrorFrame(failure.value), End(Errored)])
  {
    var p := Plan(model, readings, chunks, failure);
    var e := Ending(failure);
    PlanLength(model, readings, chunks, failure);
    assert p[|p| - 1] == e[|e| - 1] by {
      PlanAt(model, readings, chunks, failure, |p| - 1);
    }
    if failure.Some? {
      assert p[|p| - 2] == ErrorFrame(failure.value) by {
        PlanAt(model, readings, chunks, failure, |p| - 2);
      }
      assert p[|p| - 2..] == [p[|p| - 2], p[|p| - 1]];
    }
  }


  /** A failure only appends: every frame sent before the upstream raised
      is kept, and the normal `end` is replaced by `error` and `end`. */
  lemma FailureKeepsPrefix(model: string, readings: Readings, chunks: seq<Chunk>, m: string)
    ensures var ok := Plan(model, readings, chunks, None);
      Plan(model, readings, chunks, Some(m)) == ok[..|ok| - 1] + [ErrorFrame(m), End(Errored)]
  {
    PlanShape(model, readings, chunks, None);
    PlanShape(model, readings, chunks, Some(m));
    var ok := Plan(model, readings, chunks, None);
    var head := [Start(ResponseId(readings.idAt), model, Trunc(readings.createdAt))] + Body(readings.heartbeatAt, chunks);
    assert ok == head + [End(Stop)];
    assert ok[..|ok| - 1] == head;
  }

  lemma {:induction false} DeltasAppend(a: seq<CompletionFrame>, b: seq<CompletionFrame>)
    ensures Deltas(a + b) == Deltas(a) + Deltas(b)
  {
    if a == [] {
      assert a + b == b;
    } else {
      assert (a + b)[1..] == a[1..] + b;
      DeltasAppend(a[1..], b);
    }
  }

  lemma {:induction false} TextsSnoc(chunks: seq<Chunk>, c: Chunk)
    ensures Texts(chunks + [c]) == Texts(chunks) + (if HasText(c.content) then [c.content.value] else [])
  {
    if chunks == [] {
      assert chunks + [c] == [c];
    } else {
      assert (chunks + [c])[1..] == chunks[1..] + [c];
      TextsSnoc(chunks[1..], c);
    }
  }

  lemma {:induction false} BodyDeltas(start: real, chunks: seq<Chunk>)
    ensures Deltas(Body(start, chunks)) == Texts(chunks)
  {
    if chunks != [] {
      var before := chunks[..|chunks| - 1];
      var c := chunks[|chunks| - 1];
      BodyDeltas(start, before);
      var seg := Segment(c, LastBeat(start, before));
      DeltasAppend(Body(start, before), seg);
      var d: seq<CompletionFrame> := if HasText(c.content) then [Delta(c.content.value)] else [];
      var h: seq<CompletionFrame> := if c.now - LastBeat(start, before) > HeartbeatInterval then [Ping] else [];
      DeltasAppend(d, h);
      assert Deltas(h) == [];
      assert chunks == before + [c];
      TextsSnoc(before, c);
    }
  }

  lemma {:induction false} ConcatTexts(chunks: seq<Chunk>)
    ensures Concat(Texts(chunks)) == StreamedText(chunks)
  {
    if chunks != [] {
      ConcatTexts(chunks[1..]);
      var first: seq<string> := if HasText(chunks[0].content) then [chunks[0].content.value] else [];
      ConcatAppend(first, Texts(chunks[1..]));
    }
  }

  /** The `delta` frames carry the streamed text exactly: one per chunk with
      non-empty content, in order, and together they spell the whole
      response; chunks without content produce no `delta`, so no `delta`
      is ever empty. */
  lemma DeltasCarryText(model: string, readings: Readings, chunks: seq<Chunk>, failure: Option<string>)
    ensures var p := Plan(model, readings, chunks, failure);
      && Deltas(p) == Texts(chunks)
      && Concat(Deltas(p)) == StreamedText(chunks)
      && (forall i | 0 <= i < |p| :: p[i].Delta? ==> p[i].content != "")
  {
    PlanShape(model, readings, chunks, failure);
    var b := Body(readings.heartbeatAt, chunks);
    var start := [Start(ResponseId(readings.idAt), model, Trunc(readings.createdAt))];
    DeltasAppend(start, b);
    DeltasAppend(start + b, Ending(failure));
    BodyDeltas(readings.heartbeatAt, chunks);
    ConcatTexts(chunks);
    var e := Ending(failure);
    assert Deltas(e) == [] by {
      if failure.Some? {
        assert Deltas(e) == Deltas(e[1..]);
      }
    }
    NoEmptyDelta(readings.heartbeatAt, chunks);
    var p := Plan(model, readings, chunks, failure);
    forall i | 0 < i <= |b|
      ensures p[i] == b[i - 1]
    {
    }
    forall i | |b| < i < |p|
      ensures !p[i].Delta?
    {
      assert p[i] == e[i - 1 - |b|];
    }
  }

  lemma {:induction false} NoEmptyDelta(start: real, chunks: seq<Chunk>)
    ensures forall i | 0 <= i < |Body(start, chunks)| :: Body(start, chunks)[i].Delta? ==> Body(start, chunks)[i].content != ""
  {
    if chunks != [] {
      NoEmptyDelta(start, chunks[..|chunks| - 1]);
    }
  }

  /** A heartbeat follows a chunk exactly when more than 15 seconds passed
      between the last heartbeat (or the start) and the reading taken after
      the chunk; it then comes after that chunk's `delta`, if any, and a
      chunk adds at most one `delta` and at most one heartbeat. */
  lemma HeartbeatRule(start: real, chunks: seq<Chunk>, c: Chunk)
    ensures var seg := Body(start, chunks + [c])[|Body(start, chunks)|..];
      && Body(start, chunks + [c]) == Body(start, chunks) + seg
      && (|seg| > 0 && seg[|seg| - 1] == Ping <==> c.now - LastBeat(start, chunks) > HeartbeatInterval)
      && (HasText(c.content) <==> |seg| > 0 && seg[0].Delta?)
      && (HasText(c.content) ==> seg[0] == Delta(c.content.value))
      && |seg| == (if HasText(c.content) then 1 else 0)
                  + (if c.now - LastBeat(start, chunks) > HeartbeatInterval then 1 else 0)
  {
    assert (chunks + [c])[..|chunks|] == chunks;
    assert (chunks + [c])[|chunks|] == c;
    var seg := Segment(c, LastBeat(start, chunks));
    assert Body(start, chunks + [c]) == Body(start, chunks) + seg;
    assert Body(start, chunks + [c])[|Body(start, chunks)|..] == seg;
  }

  // ---------------------------------------------------------------------
  // What the browser receives

  /** The messages a client receives for a frame: none for a heartbeat,
      one for any other frame. */
  function Received(f: CompletionFrame): seq<Message> {
    if f == Ping then [] else [Message(EventName(f), Dumps(Payload(f)))]
  }

  /** What a client reads back from a frame is what the frame was built
      from: its event name and its payload's JSON text, or nothing at all
      for a heartbeat. */
  lemma RenderDecodes(f: CompletionFrame)
    ensures Framed(Render(f))
    ensures Decode(Render(f)) == Received(f)
  {
    if f == Ping {
      HeartbeatInvisible();
    } else {
      SseDecodes(EventName(f), Payload(f));
    }
  }

  /** A browser reading the whole response receives one message per frame,
      in order, heartbeats excepted: they keep the connection busy without
      reaching the page. */
  lemma StreamDecodes(model: string, readings: Readings, chunks: seq<Chunk>, failure: Option<string>)
    ensures var p := Plan(model, readings, chunks, failure);
      Decode(Concat(AskQuestionStreamResponse(model, readings, chunks, failure))) ==
        Flatten(seq(|p|, i requires 0 <= i < |p| => Received(p[i])))
  {
    var p := Plan(model, readings, chunks, failure);
    var s := AskQuestionStreamResponse(model, readings, chunks, failure);
    var parts := seq(|p|, i requires 0 <= i < |p| => Received(p[i]));
    forall k | 0 <= k < |s|
      ensures Framed(s[k]) && Decode(s[k]) == parts[k]
    {
      RenderDecodes(p[k]);
    }
    DecodeFrames(s);
    DecodeEachFlatten(s, parts);
  }
}
