/** services/mcp_use.py: the general frame builder `_sse` and the agent
    stream `stream_mcp`, which relays a tool-using agent's events to the
    browser. The agent itself is replaced by the list of events it yields and
    the optional exception it raises after them. */
module McpUse {
  import opened Base
  import opened Json
  import opened EventStream
  import opened Common

  // ---------------------------------------------------------------------
  // `_sse`

  /** The `event:` line, present only for a truthy event name. */
  function EventLines(event: Option<string>): seq<string> {
    if HasText(event) then ["event: " + event.value] else []
  }

  /** The `data:` line, present whenever the data is not `None`. */
  function DataLines(data: Value): seq<string> {
    if data != Null then ["data: " + PayloadText(data)] else []
  }

  /** `_sse(event, data)`: the lines present, joined by LF, then a blank
      line. A frame with neither line is two bare line breaks. */
  function Frame(event: Option<string>, data: Value): string {
    Join(EventLines(event) + DataLines(data), "\n") + "\n\n"
  }

  lemma JoinPair(a: string, b: string)
    ensures Join([a, b], "\n") == a + "\n" + b
  {
    assert [a, b][1..] == [b];
  }

  lemma NamedDataText(event: Option<string>, data: Value)
    requires HasText(event) && data != Null
    ensures Frame(event, data) == "event: " + event.value + "\n" + "data: " + PayloadText(data) + "\n\n"
  {
    var a, b := "event: " + event.value, "data: " + PayloadText(data);
    assert Frame(event, data) == a + "\n" + b + "\n\n" by {
      assert EventLines(event) + DataLines(data) == [a, b];
      JoinPair(a, b);
    }
    AppendAssoc(a + "\n", "data: ", PayloadText(data));
  }

  lemma NamedOnlyText(event: Option<string>)
    requires HasText(event)
    ensures Frame(event, Null) == "event: " + event.value + "\n\n"
  {
    assert EventLines(event) + DataLines(Null) == ["event: " + event.value];
  }

  lemma DataOnlyText(event: Option<string>, data: Value)
    requires !HasText(event) && data != Null
    ensures Frame(event, data) == "data: " + PayloadText(data) + "\n\n"
  {
    assert EventLines(event) + DataLines(data) == ["data: " + PayloadText(data)];
  }

  lemma BareText(event: Option<string>)
    requires !HasText(event)
    ensures Frame(event, Null) == "\n\n"
  {
    assert EventLines(event) + DataLines(Null) == [];
  }

  /** The four shapes of an `_sse` frame. */
  lemma FrameText(event: Option<string>, data: Value)
    ensures HasText(event) && data != Null ==>
      Frame(event, data) == "event: " + event.value + "\n" + "data: " + PayloadText(data) + "\n\n"
    ensures HasText(event) && data == Null ==>
      Frame(event, data) == "event: " + event.value + "\n\n"
    ensures !HasText(event) && data != Null ==>
      Frame(event, data) == "data: " + PayloadText(data) + "\n\n"
    ensures !HasText(event) && data == Null ==>
      Frame(event, data) == "\n\n"
  {
    if HasText(event) && data != Null {
      NamedDataText(event, data);
    } else if HasText(event) {
      NamedOnlyText(event);
    } else if data != Null {
      DataOnlyText(event, data);
    } else {
      BareText(event);
    }
  }

  lemma EventOnlyDecodes(event: string)
    requires OneLine(event)
    ensures Lines("event: " + event + "\n\n") == ["event: " + event, ""]
    ensures Framed("event: " + event + "\n\n")
    ensures Decode("event: " + event + "\n\n") == []
  {
    var line := "event: " + event;
    assert "event: " + event + "\n\n" == line + "\n\n";
    assert Lines(line + "\n\n") == [line, ""] by {
      OneLineAppend("event: ", event);
      TwoLines(line);
    }
    assert Interpret(Empty, [line, ""]).0 == Empty && Interpret(Empty, [line, ""]).1 == [] by {
      InterpretTwo(Empty, line);
      FeedEventLine(Empty, event);
    }
  }

  /** A lone `data:` line and a blank line dispatch one untyped message. */
  lemma InterpretDataOnly(payload: string)
    ensures Interpret(Empty, ["data: " + payload, ""]).0 == Empty
    ensures Interpret(Empty, ["data: " + payload, ""]).1 == [Message("message", payload)]
  {
    var line := "data: " + payload;
    var b := Buffers("", payload + "\n");
    InterpretTwo(Empty, line);
    assert Feed(Empty, line).0 == b && Feed(Empty, line).1 == [] by {
      FeedDataLine(Empty, payload);
      assert Empty.data + payload + "\n" == payload + "\n";
    }
    assert Feed(b, "").0 == Empty && Feed(b, "").1 == [Message("message", payload)] by {
      assert (payload + "\n")[..|payload + "\n"| - 1] == payload;
    }
  }

  lemma DataOnlyDecodes(payload: string)
    requires OneLine(payload)
    ensures Lines("data: " + payload + "\n\n") == ["data: " + payload, ""]
    ensures Framed("data: " + payload + "\n\n")
    ensures Decode("data: " + payload + "\n\n") == [Message("message", payload)]
  {
    var line := "data: " + payload;
    assert "data: " + payload + "\n\n" == line + "\n\n";
    assert Lines(line + "\n\n") == [line, ""] by {
      OneLineAppend("data: ", payload);
      TwoLines(line);
    }
    InterpretDataOnly(payload);
  }

  lemma BareDecodes()
    ensures Lines("\n\n") == ["", ""]
    ensures Framed("\n\n")
    ensures Decode("\n\n") == []
  {
    assert "\n\n" == "" + "\n" + ("" + "\n" + "");
    LinesCons("", "" + "\n" + "");
    LinesCons("", "");
    assert Lines("") == [];
    InterpretCons(Empty, "", []);
    assert [""] == [""] + [];
    InterpretCons(Empty, "", [""]);
    assert ["", ""] == [""] + [""];
  }

  /** The lines a frame consists of: an `event:` line for a truthy name,
      a `data:` line for data other than `None`, and the closing blank line
      (two blank lines when there is neither). */
  function FrameLines(event: Option<string>, data: Value): seq<string> {
    var parts := EventLines(event) + DataLines(data);
    (if parts == [] then [""] else parts) + [""]
  }

  /** The messages a frame stands for: one when there is data, typed by the
      event name or `message` when unnamed; none otherwise. */
  function FrameMessages(event: Option<string>, data: Value): seq<Message> {
    if data == Null then []
    else [Message(if HasText(event) then event.value else "message", PayloadText(data))]
  }

  lemma FrameNamedData(event: Option<string>, data: Value, f: string)
    requires HasText(event) && data != Null
    requires OneLine(event.value) && OneLine(PayloadText(data))
    requires f == Frame(event, data)
    ensures Lines(f) == FrameLines(event, data) && Framed(f) && Decode(f) == FrameMessages(event, data)
  {
    FrameText(event, data);
    NamedFrameDecodes(event.value, PayloadText(data));
    assert EventLines(event) + DataLines(data) == ["event: " + event.value, "data: " + PayloadText(data)];
  }

  lemma FrameNamedOnly(event: Option<string>, data: Value, f: string)
    requires HasText(event) && data == Null
    requires OneLine(event.value)
    requires f == Frame(event, data)
    ensures Lines(f) == FrameLines(event, data) && Framed(f) && Decode(f) == FrameMessages(event, data)
  {
    FrameText(event, data);
    EventOnlyDecodes(event.value);
    assert EventLines(event) + DataLines(data) == ["event: " + event.value];
  }

  lemma FrameDataOnly(event: Option<string>, data: Value, f: string)
    requires !HasText(event) && data != Null
    requires OneLine(PayloadText(data))
    requires f == Frame(event, data)
    ensures Lines(f) == FrameLines(event, data) && Framed(f) && Decode(f) == FrameMessages(event, data)
  {
    FrameText(event, data);
    DataOnlyDecodes(PayloadText(data));
    assert EventLines(event) + DataLines(data) == ["data: " + PayloadText(data)];
  }

  lemma FrameBare(event: Option<string>, data: Value, f: string)
    requires !HasText(event) && data == Null
    requires f == Frame(event, data)
    ensures Lines(f) == FrameLines(event, data) && Framed(f) && Decode(f) == FrameMessages(event, data)
  {
    FrameText(event, data);
    BareDecodes();
    assert EventLines(event) + DataLines(data) == [];
  }

  /** `_sse` writes an `event:` line exactly when the event name is truthy
      and a `data:` line exactly when the data is not `None`; a client reads
      the frame as one message when there is data (of type `message` when
      unnamed) and as nothing otherwise. */
  lemma FrameDecodes(event: Option<string>, data: Value)
    requires event.Some? ==> OneLine(event.value)
    requires data.Str? ==> OneLine(data.s)
    ensures Lines(Frame(event, data)) == FrameLines(event, data)
    ensures Framed(Frame(event, data))
    ensures Decode(Frame(event, data)) == FrameMessages(event, data)
  {
    var f := Frame(event, data);
    PayloadOneLine(data);
    if HasText(event) && data != Null {
      FrameNamedData(event, data, f);
    } else if HasText(event) {
      FrameNamedOnly(event, data, f);
    } else if data != Null {
      FrameDataOnly(event, data, f);
    } else {
      FrameBare(event, data, f);
    }
  }

  /** A frame starts with an `event:` line exactly when the event name is
      truthy, and always ends with a blank line. */
  lemma FrameEnds(event: Option<string>, data: Value)
    ensures EndsWith(Frame(event, data), "\n\n")
    ensures HasText(event) <==> StartsWith(Frame(event, data), "event: ")
  {
    var parts := EventLines(event) + DataLines(data);
    var j := Join(parts, "\n");
    var f := Frame(event, data);
    assert EndsWith(f, "\n\n") by {
      assert f == j + "\n\n";
      assert f[|f| - 2..] == "\n\n";
    }
    if HasText(event) {
      var line := "event: " + event.value;
      assert StartsWith(j, line) by {
        assert parts[0] == line;
        JoinStartsWith(parts, "\n");
      }
      assert StartsWith(f, "event: ") by {
        assert f == j + "\n\n";
        assert f[..7] == j[..7] == line[..7] == "event: ";
      }
    } else {
      assert f[0] != 'e' by {
        assert f == j + "\n\n";
        if data != Null {
          assert parts == ["data: " + PayloadText(data)];
          assert f[0] == 'd';
        } else {
          assert parts == [];
          assert f[0] == '\n';
        }
      }
      assert !StartsWith(f, "event: ") by {
        if 7 <= |f| {
          assert f[..7][0] == f[0];
        }
      }
    }
  }

  // ---------------------------------------------------------------------
  // `stream_mcp`

  /** One item of the agent's stream: a final answer (a string), a tool step
      (an `(action, observation)` pair, where `tool` and `input` are the
      action's attributes or `None` when it lacks them), or an item that
      cannot be unpacked into a pair, with the message of the resulting
      exception. */
  datatype AgentEvent =
    | Text(text: string)
    | Step(tool: Value, input: Value, observation: Value)
    | Malformed(reason: string)

  /** The frames `stream_mcp` yields, before rendering. */
  datatype AgentFrame =
    | Status
    | StepFrame(tool: Value, input: Value, output: Value)
    | FinalObservation(observation: Value)
    | FinalText(text: string)
    | ErrorFrame(message: string)
    | Done

  function EventOf(f: AgentFrame): Option<string> {
    match f
    case Status => Some("status")
    case StepFrame(_, _, _) => Some("step")
    case FinalObservation(_) => Some("final")
    case FinalText(_) => Some("final")
    case ErrorFrame(_) => Some("error")
    case Done => None
  }

  function DataOf(f: AgentFrame): Value {
    match f
    case Status => Obj([Member("message", Str("starting"))])
    case StepFrame(t, i, o) => Obj([Member("tool", t), Member("input", i), Member("output", o)])
    case FinalObservation(o) => Obj([Member("observation", o)])
    case FinalText(s) => Obj([Member("text", Str(s))])
    case ErrorFrame(m) => Obj([Member("message", Str(m))])
    case Done => Str("[DONE]")
  }

  /** The text of a frame, as `_sse` builds it. */
  function Render(f: AgentFrame): string {
    Frame(EventOf(f), DataOf(f))
  }

  function RenderAll(fs: seq<AgentFrame>): seq<string> {
    Map(Render, fs)
  }

  /** How the stream ends once the agent stops: `[DONE]` alone, or after an
      `error` frame when the agent raised. */
  function Ending(failure: Option<string>): seq<AgentFrame> {
    match failure
    case None => [Done]
    case Some(m) => [ErrorFrame(m), Done]
  }

  /** The `try` block after the `status` frame: the `async for` loop over the
      agent's events, `last` being the variable `last_observation`. */
  function Loop(events: seq<AgentEvent>, last: Value, failure: Option<string>): seq<AgentFrame>
  {
    if events == [] then Ending(failure)
    else
      match events[0]
      case Text(s) =>
        [if last != Null then FinalObservation(last) else FinalText(s)] + Loop(events[1..], last, failure)
      case Step(t, i, o) =>
        [StepFrame(t, i, o)] + Loop(events[1..], o, failure)
      case Malformed(reason) =>
        [ErrorFrame(reason), Done]
  }

  /** The frames of `stream_mcp`, before rendering. */
  function Plan(events: seq<AgentEvent>, failure: Option<string>): seq<AgentFrame> {
    [Status] + Loop(events, Null, failure)
  }

  /** `stream_mcp(question)` against an agent that yields `events` and then
      raises `failure`, if any. */
  function StreamMcp(events: seq<AgentEvent>, failure: Option<string>): seq<string> {
    RenderAll(Plan(events, failure))
  }

  // ---------------------------------------------------------------------
  // Reference definitions

  /** How many events are relayed before the first one that cannot be
      unpacked. */
  function Consumed(events: seq<AgentEvent>): (k: nat)
    ensures k <= |events|
    ensures forall i | 0 <= i < k :: !events[i].Malformed?
    ensures k < |events| ==> events[k].Malformed?
  {
    if events == [] || events[0].Malformed? then 0 else 1 + Consumed(events[1..])
  }

  /** The exception that ends the loop, if any: the first unpacking error,
      otherwise the agent's own failure. */
  function Outcome(events: seq<AgentEvent>, failure: Option<string>): Option<string> {
    var k := Consumed(events);
    if k < |events| then Some(events[k].reason) else failure
  }

  /** The observation of the most recent step among `events`, `None` when
      there is no step. */
  function LastObservation(events: seq<AgentEvent>): Value {
    if events == [] then Null
    else if events[|events| - 1].Step? then events[|events| - 1].observation
    else LastObservation(events[..|events| - 1])
  }

  /** The frame relayed for one well-formed event, given the latest
      observation before it: a step is forwarded as it is; a final answer is
      replaced by that observation when there is one. */
  function Respond(e: AgentEvent, latest: Value): AgentFrame
    requires !e.Malformed?
  {
    match e
    case Text(s) => if latest != Null then FinalObservation(latest) else FinalText(s)
    case Step(t, i, o) => StepFrame(t, i, o)
  }

  // ---------------------------------------------------------------------
  // Properties

  /** `last_observation` after one more well-formed event. */
  function NextObservation(last: Value, e: AgentEvent): Value {
    if e.Step? then e.observation else last
  }

  lemma LoopStep(events: seq<AgentEvent>, last: Value, failure: Option<string>)
    requires events != [] && !events[0].Malformed?
    ensures Loop(events, last, failure) ==
      [Respond(events[0], last)] + Loop(events[1..], NextObservation(last, events[0]), failure)
  {
  }

  lemma LastObservationSnoc(events: seq<AgentEvent>, j: nat)
    requires j < |events|
    ensures LastObservation(events[..j + 1]) == NextObservation(LastObservation(events[..j]), events[j])
  {
    assert events[..j + 1][..j] == events[..j];
    assert events[..j + 1][j] == events[j];
  }

  lemma LoopAtEnd(events: seq<AgentEvent>, last: Value, failure: Option<string>)
    ensures Loop(events[Consumed(events)..], last, failure) == Ending(Outcome(events, failure))
  {
    var k := Consumed(events);
    if k == |events| {
      assert events[k..] == [];
    } else {
      assert events[k..][0] == events[k];
    }
  }

  /** The frames relayed for the first `n` events, each computed from the
      event and the events before it alone. */
  function Relayed(events: seq<AgentEvent>, n: nat): (r: seq<AgentFrame>)
    requires n <= Consumed(events)
    ensures |r| == n
  {
    seq(n, i requires 0 <= i < n => Respond(events[i], LastObservation(events[..i])))
  }

  /** The relayed frames from position `j` on: the frame of event `j`,
      then those after it. */
  lemma RelayedFrom(events: seq<AgentEvent>, j: nat)
    requires j < Consumed(events)
    ensures Relayed(events, Consumed(events))[j..] ==
      [Respond(events[j], LastObservation(events[..j]))] + Relayed(events, Consumed(events))[j + 1..]
  {
    var all := Relayed(events, Consumed(events));
    assert all[j] == Respond(events[j], LastObservation(events[..j]));
  }

  /** The loop from position `j` relays event `j` and goes on from `j + 1`
      with the observation it leaves. */
  lemma LoopAt(events: seq<AgentEvent>, j: nat, failure: Option<string>)
    requires j < Consumed(events)
    ensures Loop(events[j..], LastObservation(events[..j]), failure) ==
      [Respond(events[j], LastObservation(events[..j]))] + Loop(events[j + 1..], LastObservation(events[..j + 1]), failure)
  {
    var last := LastObservation(events[..j]);
    assert events[j..][0] == events[j];
    assert events[j..][1..] == events[j + 1..];
    LoopStep(events[j..], last, failure);
    LastObservationSnoc(events, j);
  }

  lemma {:induction false} LoopFrom(events: seq<AgentEvent>, j: nat, failure: Option<string>)
    requires j <= Consumed(events)
    ensures Loop(events[j..], LastObservation(events[..j]), failure) ==
      Relayed(events, Consumed(events))[j..] + Ending(Outcome(events, failure))
    decreases |events| - j
  {
    var k := Consumed(events);
    if j == k {
      LoopAtEnd(events, LastObservation(events[..j]), failure);
      assert Relayed(events, k)[j..] == [];
    } else {
      var head := [Respond(events[j], LastObservation(events[..j]))];
      var all := Relayed(events, k);
      var ending := Ending(Outcome(events, failure));
      LoopAt(events, j, failure);
      LoopFrom(events, j + 1, failure);
      RelayedFrom(events, j);
      AppendAssoc(head, all[j + 1..], ending);
    }
  }

  /** The whole agent stream: `status` first, whatever the events; then one
      frame per event up to the first one that cannot be unpacked, in order
      (a step forwarded unchanged, a final answer replaced by the latest
      observation when there is one); then `[DONE]`, preceded by an `error`
      frame when the loop ended by an exception. */
  lemma PlanShape(events: seq<AgentEvent>, failure: Option<string>)
    ensures Plan(events, failure) ==
      [Status] + Relayed(events, Consumed(events)) + Ending(Outcome(events, failure))
  {
    LoopFrom(events, 0, failure);
    assert events[0..] == events;
    assert events[..0] == [];
    assert Relayed(events, Consumed(events))[0..] == Relayed(events, Consumed(events));
  }

  /** `[DONE]` closes the frame list and appears nowhere else in it. */
  lemma DoneOnlyLast(events: seq<AgentEvent>, failure: Option<string>)
    ensures var p := Plan(events, failure);
      && |p| > 0 && p[|p| - 1] == Done
      && forall i | 0 <= i < |p| - 1 :: p[i] != Done
  {
    PlanShape(events, failure);
    var p := Plan(events, failure);
    var r := Relayed(events, Consumed(events));
    var e := Ending(Outcome(events, failure));
    forall i | 0 <= i < |p| - 1
      ensures p[i] != Done
    {
      if 1 <= i < 1 + |r| {
        assert p[i] == r[i - 1];
      } else if i > 0 {
        assert p[i] == e[i - 1 - |r|];
      }
    }
  }

  /** Only `[DONE]` is sent without an event name. */
  lemma RenderNamed(f: AgentFrame)
    ensures f != Done <==> StartsWith(Render(f), "event: ")
  {
    FrameEnds(EventOf(f), DataOf(f));
  }

  /** Exactly one `[DONE]` frame is sent, and it is the last frame, on the
      normal path and on every error path alike. */
  lemma DoneOnceAtEnd(events: seq<AgentEvent>, failure: Option<string>)
    ensures var s := StreamMcp(events, failure);
      && |s| > 0 && s[|s| - 1] == "data: [DONE]\n\n"
      && Count(s, "data: [DONE]\n\n") == 1
  {
    var p := Plan(events, failure);
    var s := StreamMcp(events, failure);
    var n := |s|;
    var done := Render(Done);
    DoneOnlyLast(events, failure);
    FrameText(None, Str("[DONE]"));
    assert done == "data: [DONE]\n\n";
    RenderNamed(Done);
    forall i | 0 <= i < n - 1
      ensures s[i] != done
    {
      RenderNamed(p[i]);
    }
    CountOnlyLast(s, done);
  }

  /** An `error` frame appears exactly when the loop ended by an exception
      (the agent raised, or an event could not be unpacked); it then carries
      the exception's message and is followed only by `[DONE]`. */
  lemma ErrorIffException(events: seq<AgentEvent>, failure: Option<string>)
    ensures var p := Plan(events, failure);
      && ((exists i | 0 <= i < |p| :: p[i].ErrorFrame?) <==> Outcome(events, failure).Some?)
      && (Outcome(events, failure).Some? ==>
            |p| >= 3 && p[|p| - 2..] == [ErrorFrame(Outcome(events, failure).value), Done])
  {
    PlanShape(events, failure);
    var p := Plan(events, failure);
    var k := Consumed(events);
    if Outcome(events, failure).None? {
      forall i | 0 <= i < |p|
        ensures !p[i].ErrorFrame?
      {
        if 1 <= i < 1 + k {
          assert p[1 + (i - 1)] == Respond(events[i - 1], LastObservation(events[..i - 1]));
        } else if i == 1 + k {
          assert p[1 + k..] == [Done];
        }
      }
    } else {
      assert p[1 + k..] == [ErrorFrame(Outcome(events, failure).value), Done];
      assert p[1 + k] == ErrorFrame(Outcome(events, failure).value);
    }
  }

  /** When the agent raises after its events, every frame already sent is
      kept; the exception only puts an `error` frame before `[DONE]`. */
  lemma {:induction false} FailureKeepsPrefix(events: seq<AgentEvent>, last: Value, m: string)
    requires Consumed(events) == |events|
    ensures var ok := Loop(events, last, None);
      Loop(events, last, Some(m)) == ok[..|ok| - 1] + [ErrorFrame(m), Done]
  {
    if events != [] {
      var e := events[0];
      var next := if e.Step? then e.observation else last;
      assert Consumed(events[1..]) == |events[1..]|;
      FailureKeepsPrefix(events[1..], next, m);
      var ok := Loop(events, last, None);
      var tail := Loop(events[1..], next, None);
      assert ok == [ok[0]] + tail;
      assert ok[..|ok| - 1] == [ok[0]] + tail[..|tail| - 1];
    }
  }

  /** An event that cannot be unpacked ends the stream exactly as if the
      agent had raised at that point with the same message. */
  lemma {:induction false} MalformedActsAsFailure(events: seq<AgentEvent>, last: Value, failure: Option<string>)
    requires Consumed(events) < |events|
    ensures Loop(events, last, failure) ==
      Loop(events[..Consumed(events)], last, Some(events[Consumed(events)].reason))
  {
    var k := Consumed(events);
    if k > 0 {
      var e := events[0];
      var next := if e.Step? then e.observation else last;
      assert Consumed(events[1..]) == k - 1;
      assert events[1..][k - 1] == events[k];
      MalformedActsAsFailure(events[1..], next, failure);
      assert events[..k][1..] == events[1..][..k - 1];
      assert events[..k][0] == e;
    } else {
      assert events[..0] == [];
    }
  }

  // ---------------------------------------------------------------------
  // What the browser receives

  /** The message a client receives for a frame. */
  function MessageOf(f: AgentFrame): Message {
    Message(if f == Done then "message" else EventOf(f).value, PayloadText(DataOf(f)))
  }

  lemma RenderDecodes(f: AgentFrame)
    ensures Framed(Render(f))
    ensures Decode(Render(f)) == [MessageOf(f)]
  {
    var event, data := EventOf(f), DataOf(f);
    assert data != Null && (f != Done <==> HasText(event)) && (data.Str? ==> data.s == "[DONE]") by {
      assert HasText(Some("status")) && HasText(Some("step")) && HasText(Some("final"));
      assert HasText(Some("error"));
    }
    assert OneLine("[DONE]") by {
      assert forall k | 0 <= k < |"[DONE]"| :: !IsLineBreak("[DONE]"[k]);
    }
    assert event.Some? ==> OneLine(event.value) by {
      assert OneLine("status") && OneLine("step") && OneLine("final") && OneLine("error");
    }
    FrameDecodes(event, data);
    assert FrameMessages(event, data) == [MessageOf(f)];
  }

  /** The messages of a list of frames, one per frame. */
  function MessagesOf(fs: seq<AgentFrame>): (r: seq<Message>)
    ensures |r| == |fs|
  {
    seq(|fs|, i requires 0 <= i < |fs| => MessageOf(fs[i]))
  }

  lemma DecodeEachRendered(fs: seq<AgentFrame>)
    ensures DecodeEach(RenderAll(fs)) == MessagesOf(fs)
  {
    forall k | 0 <= k < |fs|
      ensures Decode(RenderAll(fs)[k]) == [MessagesOf(fs)[k]]
    {
      RenderDecodes(fs[k]);
    }
    DecodeEachSingles(RenderAll(fs), MessagesOf(fs));
  }

  /** A browser reading the whole response receives one message per frame,
      in order: every frame of the agent stream is well formed, whatever the
      text and observations it carries. */
  lemma StreamMcpDecodes(events: seq<AgentEvent>, failure: Option<string>)
    ensures var p := Plan(events, failure);
      Decode(Concat(StreamMcp(events, failure))) == MessagesOf(p)
  {
    var s := StreamMcp(events, failure);
    forall k | 0 <= k < |s|
      ensures Framed(s[k])
    {
      RenderDecodes(Plan(events, failure)[k]);
    }
    DecodeFrames(s);
    DecodeEachRendered(Plan(events, failure));
  }
}
