/** The two frame builders of utils/common.py: `sse`, a named event with one
    data line, and `heartbeat`, a comment frame that keeps idle proxies from
    closing the connection. */
module Common {
  import opened Base
  import opened Json
  import opened EventStream

  /** The text put on a `data:` line: a string is sent verbatim, any other
      value as its JSON text. */
  function PayloadText(data: Value): string {
    if data.Str? then data.s else Dumps(data)
  }

  /** `sse(event, data)`: an `event:` line, a `data:` line and the blank
      line that ends the frame. */
  function Sse(event: string, data: Value): (r: string)
    ensures StartsWith(r, "event: " + event + "\n")
    ensures EndsWith(r, "\ndata: " + PayloadText(data) + "\n\n")
    ensures |r| == |"event: \ndata: \n\n"| + |event| + |PayloadText(data)|
  {
    "event: " + event + "\n" + "data: " + PayloadText(data) + "\n\n"
  }

  /** `heartbeat()`: a comment line and the blank line after it. */
  function Heartbeat(): string {
    ": ping\n\n"
  }

  /** A payload fits on one line when it is JSON text or a one-line string. */
  lemma PayloadOneLine(data: Value)
    requires data.Str? ==> OneLine(data.s)
    ensures OneLine(PayloadText(data))
  {
    if !data.Str? {
      DumpsOneLine(data);
    }
  }

  lemma FieldLine(name: string, value: string)
    requires forall k | 0 <= k < |name| :: name[k] != ':'
    ensures FirstColon(name + ": " + value) == |name|
    ensures (name + ": " + value)[..|name|] == name
    ensures (name + ": " + value)[|name| + 1..] == " " + value
  {
    var line := name + ": " + value;
    assert line[|name|] == ':';
    assert forall k | 0 <= k < |name| :: line[k] == name[k];
  }

  /** Reading an `event:` line sets the event type buffer to the name. */
  lemma FeedEventLine(b: Buffers, name: string)
    ensures Feed(b, "event: " + name) == (b.(kind := name), [])
  {
    var line := "event: " + name;
    assert line == "event" + ": " + name;
    FieldLine("event", name);
    assert line != "" && line[0] == 'e';
    assert (" " + name)[1..] == name;
    assert FieldValue(line[6..]) == name;
    assert line[..FirstColon(line)] == "event";
  }

  /** Reading a `data:` line appends the payload and a LF to the data buffer. */
  lemma FeedDataLine(b: Buffers, payload: string)
    ensures Feed(b, "data: " + payload) == (b.(data := b.data + payload + "\n"), [])
  {
    var line := "data: " + payload;
    assert line == "data" + ": " + payload;
    FieldLine("data", payload);
    assert line != "" && line[0] == 'd';
    assert (" " + payload)[1..] == payload;
    assert FieldValue(line[5..]) == payload;
    assert line[..FirstColon(line)] == "data";
    assert line[..FirstColon(line)] != "event";
  }

  /** The three lines of a named frame leave the parser clean after
      dispatching one message. */
  lemma InterpretNamedFrame(event: string, payload: string)
    ensures Interpret(Empty, ["event: " + event, "data: " + payload, ""]) == (Empty, [Message(KindOf(event), payload)])
  {
    var eventLine, dataLine := "event: " + event, "data: " + payload;
    var m := [Message(KindOf(event), payload)];
    FeedEventLine(Empty, event);
    var b1 := Buffers(event, "");
    FeedDataLine(b1, payload);
    var b2 := Buffers(event, payload + "\n");
    assert (payload + "\n")[..|payload + "\n"| - 1] == payload;
    assert Feed(b2, "") == (Empty, m);
    // Each step below splits off the first line and feeds it.
    InterpretCons(b2, "", []);
    assert [""] == [""] + [];
    assert Interpret(b2, [""]).0 == Empty && Interpret(b2, [""]).1 == m;
    InterpretCons(b1, dataLine, [""]);
    assert [dataLine, ""] == [dataLine] + [""];
    assert b1.data + payload + "\n" == payload + "\n";
    assert Feed(b1, dataLine) == (b2, []);
    assert Interpret(b1, [dataLine, ""]).0 == Empty && Interpret(b1, [dataLine, ""]).1 == m;
    InterpretCons(Empty, eventLine, [dataLine, ""]);
    assert [eventLine, dataLine, ""] == [eventLine] + [dataLine, ""];
    assert Feed(Empty, eventLine) == (b1, []);
    assert Interpret(Empty, [eventLine, dataLine, ""]).0 == Empty;
    assert Interpret(Empty, [eventLine, dataLine, ""]).1 == m;
  }



  /** A one-line event name and a one-line payload, written as an event
      line, a data line and a blank line, read back as one message. */
  lemma NamedFrameDecodes(event: string, payload: string)
    requires OneLine(event) && OneLine(payload)
    ensures Lines("event: " + event + "\n" + "data: " + payload + "\n\n") == ["event: " + event, "data: " + payload, ""]
    ensures Framed("event: " + event + "\n" + "data: " + payload + "\n\n")
    ensures Decode("event: " + event + "\n" + "data: " + payload + "\n\n") == [Message(KindOf(event), payload)]
  {
    OneLineAppend("event: ", event);
    OneLineAppend("data: ", payload);
    var f := "event: " + event + "\n" + "data: " + payload + "\n\n";
    assert f == ("event: " + event) + "\n" + (("data: " + payload) + "\n" + ("" + "\n" + ""));
    LinesCons("event: " + event, ("data: " + payload) + "\n" + ("" + "\n" + ""));
    LinesCons("data: " + payload, "" + "\n" + "");
    LinesCons("", "");
    assert Lines("") == [];
    InterpretNamedFrame(event, payload);
  }

  /** The frame `sse` builds is read back by a client as exactly one message
      whose type is the event name (`message` for an empty name) and whose
      data is the payload, provided neither breaks a line. JSON payloads
      never do. */
  lemma SseDecodes(event: string, data: Value)
    requires OneLine(event)
    requires data.Str? ==> OneLine(data.s)
    ensures Lines(Sse(event, data)) == ["event: " + event, "data: " + PayloadText(data), ""]
    ensures Framed(Sse(event, data))
    ensures Decode(Sse(event, data)) == [Message(KindOf(event), PayloadText(data))]
  {
    PayloadOneLine(data);
    NamedFrameDecodes(event, PayloadText(data));
  }

  /** A comment line and a blank line are framed like any other frame, but
      the client dispatches nothing for them. */
  lemma CommentDecodes(text: string)
    requires OneLine(text)
    ensures Lines(":" + text + "\n\n") == [":" + text, ""]
    ensures Framed(":" + text + "\n\n")
    ensures Decode(":" + text + "\n\n") == []
  {
    var line := ":" + text;
    var f := ":" + text + "\n\n";
    assert f == line + "\n" + ("" + "\n" + "");
    assert Lines(f) == [line, ""] by {
      OneLineAppend(":", text);
      TwoLines(line);
    }
    assert Interpret(Empty, [line, ""]).0 == Empty && Interpret(Empty, [line, ""]).1 == [] by {
      InterpretTwo(Empty, line);
      assert line[0] == ':';
    }
    assert f[|f| - 1] == '\n';
  }

  /** A heartbeat is a comment: it is framed like any other frame but the
      client dispatches nothing for it. */
  lemma HeartbeatInvisible()
    ensures StartsWith(Heartbeat(), ":")
    ensures Lines(Heartbeat()) == [": ping", ""]
    ensures Framed(Heartbeat())
    ensures Decode(Heartbeat()) == []
  {
    var h := Heartbeat();
    assert h == ":" + " ping" + "\n\n" && ":" + " ping" == ": ping" by {
      assert h[0] == ':';
    }
    assert OneLine(" ping");
    CommentDecodes(" ping");
  }
}
