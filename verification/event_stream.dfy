/** The receiving side of the wire format: how a browser's `EventSource`
    turns the bytes of a `text/event-stream` response into message events,
    following section 9.2.6 "Interpreting an event stream" of the WHATWG HTML
    Living Standard. It is the inverse against which the frame builders are
    checked. Only the `event` and `data` fields are modelled; `id` and `retry`
    change no message's type or data and are treated like unknown fields. */
module EventStream {
  import opened Base

  /** A dispatched message event: its type and its data. */
  datatype Message = Message(kind: string, data: string)

  /** The event type and data buffers of the parser. */
  datatype Buffers = Buffers(kind: string, data: string)

  const Empty := Buffers("", "")

  /** Index of the first CR or LF of `s`, or `|s|` when there is none. */
  function FirstBreak(s: string): (i: nat)
    ensures i <= |s|
    ensures i < |s| ==> IsLineBreak(s[i])
    ensures forall k | 0 <= k < i :: !IsLineBreak(s[k])
  {
    if s == [] || IsLineBreak(s[0]) then 0 else 1 + FirstBreak(s[1..])
  }

  /** The complete lines of a stream. A line ends at CRLF, at LF or at CR;
      text after the last line break is an unfinished line and is not
      interpreted. */
  function Lines(s: string): seq<string>
    decreases |s|
  {
    var i := FirstBreak(s);
    if i == |s| then []
    else if s[i] == '\r' && i + 1 < |s| && s[i + 1] == '\n' then [s[..i]] + Lines(s[i + 2..])
    else [s[..i]] + Lines(s[i + 1..])
  }

  /** Index of the first colon of `line`, or `|line|`. */
  function FirstColon(line: string): (i: nat)
    ensures i <= |line|
    ensures i < |line| ==> line[i] == ':'
    ensures forall k | 0 <= k < i :: line[k] != ':'
  {
    if line == [] || line[0] == ':' then 0 else 1 + FirstColon(line[1..])
  }

  /** A field value loses one leading space, if it has one. */
  function FieldValue(afterColon: string): string {
    if afterColon != [] && afterColon[0] == ' ' then afterColon[1..] else afterColon
  }

  /** The type a message is dispatched with: the event type buffer, or
      `message` when that buffer is empty. */
  function KindOf(kind: string): string {
    if kind == "" then "message" else kind
  }

  /** Processes one line: a blank line dispatches the buffered event (if the
      data buffer holds anything) and clears both buffers; a line starting
      with a colon is a comment; any other line is a field. */
  function Feed(b: Buffers, line: string): (Buffers, seq<Message>) {
    if line == "" then
      if b.data == "" then (Empty, [])
      else
        var data := if b.data[|b.data| - 1] == '\n' then b.data[..|b.data| - 1] else b.data;
        (Empty, [Message(KindOf(b.kind), data)])
    else if line[0] == ':' then (b, [])
    else
      var c := FirstColon(line);
      var name := line[..c];
      var value := if c == |line| then "" else FieldValue(line[c + 1..]);
      if name == "event" then (b.(kind := value), [])
      else if name == "data" then (b.(data := b.data + value + "\n"), [])
      else (b, [])
  }

  /** Processes lines in order: the buffers left at the end, and the
      messages dispatched on the way. */
  function Interpret(b: Buffers, lines: seq<string>): (Buffers, seq<Message>)
    decreases |lines|
  {
    if lines == [] then (b, [])
    else
      var (b1, m1) := Feed(b, lines[0]);
      var (b2, m2) := Interpret(b1, lines[1..]);
      (b2, m1 + m2)
  }

  /** The messages a client receives from the stream `s`. */
  function Decode(s: string): seq<Message> {
    Interpret(Empty, Lines(s)).1
  }

  /** A frame: a piece of stream that ends a line and leaves the parser with
      empty buffers, so the next frame is read independently of it. */
  predicate Framed(f: string) {
    |f| > 0 && f[|f| - 1] == '\n' && Interpret(Empty, Lines(f)).0 == Empty
  }

  /** The messages of each frame, one frame after the other. */
  function DecodeEach(frames: seq<string>): seq<Message> {
    if frames == [] then [] else Decode(frames[0]) + DecodeEach(frames[1..])
  }

  // ---------------------------------------------------------------------
  // Lemmas

  /** A one-line string followed by LF is a line of its own. */
  lemma LinesCons(line: string, rest: string)
    requires OneLine(line)
    ensures Lines(line + "\n" + rest) == [line] + Lines(rest)
  {
    var s := line + "\n" + rest;
    assert s[|line|] == '\n';
    assert FirstBreak(s) == |line| by {
      assert forall k | 0 <= k < |line| :: s[k] == line[k];
    }
    assert s[..|line|] == line;
    assert s[|line| + 1..] == rest;
  }

  /** A one-line string, LF and a blank line are two lines. */
  lemma TwoLines(line: string)
    requires OneLine(line)
    ensures Lines(line + "\n\n") == [line, ""]
  {
    assert line + "\n\n" == line + "\n" + ("" + "\n" + "");
    LinesCons(line, "" + "\n" + "");
    LinesCons("", "");
    assert Lines("") == [];
  }

  lemma {:induction false} FirstBreakAppend(a: string, b: string)
    requires FirstBreak(a) < |a|
    ensures FirstBreak(a + b) == FirstBreak(a)
  {
    if !IsLineBreak(a[0]) {
      assert (a + b)[1..] == a[1..] + b;
      FirstBreakAppend(a[1..], b);
    }
  }

  /** Where the line that `s` starts with ends, line break included. */
  function NextLine(s: string): nat
    requires FirstBreak(s) < |s|
  {
    var i := FirstBreak(s);
    if s[i] == '\r' && i + 1 < |s| && s[i + 1] == '\n' then i + 2 else i + 1
  }

  lemma LinesStep(s: string)
    requires FirstBreak(s) < |s|
    ensures NextLine(s) <= |s|
    ensures Lines(s) == [s[..FirstBreak(s)]] + Lines(s[NextLine(s)..])
  {
  }

  /** The line a stream starts with and where it ends do not change when
      text is appended after a LF-terminated part. */
  lemma FirstLineAppend(a: string, b: string)
    requires a != [] && a[|a| - 1] == '\n'
    ensures FirstBreak(a) < |a| && FirstBreak(a + b) == FirstBreak(a)
    ensures NextLine(a + b) == NextLine(a)
    ensures (a + b)[..FirstBreak(a)] == a[..FirstBreak(a)]
    ensures (a + b)[NextLine(a)..] == a[NextLine(a)..] + b
  {
    var i := FirstBreak(a);
    assert i < |a| by {
      assert IsLineBreak(a[|a| - 1]);
    }
    var s := a + b;
    FirstBreakAppend(a, b);
    assert s[i] == a[i];
    if i + 1 < |a| {
      assert s[i + 1] == a[i + 1];
    }
  }

  /** Splitting into lines commutes with concatenation when the first part
      ends with LF. */
  lemma {:induction false} LinesAppend(a: string, b: string)
    requires a == [] || a[|a| - 1] == '\n'
    ensures Lines(a + b) == Lines(a) + Lines(b)
    decreases |a|
  {
    if a == [] {
      assert a + b == b;
    } else {
      FirstLineAppend(a, b);
      var line := a[..FirstBreak(a)];
      var rest := a[NextLine(a)..];
      assert Lines(a) == [line] + Lines(rest) by {
        LinesStep(a);
      }
      assert Lines(a + b) == [line] + Lines(rest + b) by {
        LinesStep(a + b);
      }
      assert Lines(rest + b) == Lines(rest) + Lines(b) by {
        LinesAppend(rest, b);
      }
      AppendAssoc([line], Lines(rest), Lines(b));
    }
  }

  /** Interpreting lines one at a time. */
  lemma InterpretCons(b: Buffers, line: string, rest: seq<string>)
    ensures Interpret(b, [line] + rest).0 == Interpret(Feed(b, line).0, rest).0
    ensures Interpret(b, [line] + rest).1 == Feed(b, line).1 + Interpret(Feed(b, line).0, rest).1
  {
    assert ([line] + rest)[1..] == rest;
  }

  /** Interpreting a line and a blank line. */
  lemma InterpretTwo(b: Buffers, line: string)
    ensures Interpret(b, [line, ""]).0 == Feed(Feed(b, line).0, "").0
    ensures Interpret(b, [line, ""]).1 == Feed(b, line).1 + Feed(Feed(b, line).0, "").1
  {
    var b1 := Feed(b, line).0;
    InterpretCons(b1, "", []);
    assert [""] == [""] + [];
    InterpretCons(b, line, [""]);
    assert [line, ""] == [line] + [""];
  }

  lemma {:induction false} InterpretAppend(b: Buffers, l1: seq<string>, l2: seq<string>)
    ensures Interpret(b, l1 + l2).0 == Interpret(Interpret(b, l1).0, l2).0
    ensures Interpret(b, l1 + l2).1 == Interpret(b, l1).1 + Interpret(Interpret(b, l1).0, l2).1
    decreases |l1|
  {
    if l1 == [] {
      assert l1 + l2 == l2;
    } else {
      var fed := Feed(b, l1[0]);
      assert l1 + l2 == [l1[0]] + (l1[1..] + l2);
      InterpretCons(b, l1[0], l1[1..] + l2);
      assert l1 == [l1[0]] + l1[1..];
      InterpretCons(b, l1[0], l1[1..]);
      InterpretAppend(fed.0, l1[1..], l2);
      AppendAssoc(fed.1, Interpret(fed.0, l1[1..]).1, Interpret(Interpret(fed.0, l1[1..]).0, l2).1);
    }
  }

  /** A client reads a concatenation of frames frame by frame: the bytes of
      one frame never change how the next one is understood. */
  lemma {:induction false} DecodeFrames(frames: seq<string>)
    requires forall k | 0 <= k < |frames| :: Framed(frames[k])
    ensures Decode(Concat(frames)) == DecodeEach(frames)
  {
    if frames != [] {
      var f := frames[0];
      var rest := Concat(frames[1..]);
      assert Concat(frames) == f + rest;
      LinesAppend(f, rest);
      InterpretAppend(Empty, Lines(f), Lines(rest));
      DecodeFrames(frames[1..]);
    }
  }

  /** Frames that each stand for one message stand together for those
      messages, in order. */
  lemma {:induction false} DecodeEachSingles(frames: seq<string>, messages: seq<Message>)
    requires |frames| == |messages|
    requires forall k | 0 <= k < |frames| :: Decode(frames[k]) == [messages[k]]
    ensures DecodeEach(frames) == messages
  {
    if frames != [] {
      DecodeEachSingles(frames[1..], messages[1..]);
      assert messages == [messages[0]] + messages[1..];
    }
  }

  /** Frames that each stand for a known list of messages stand together
      for those lists, one after the other. */
  lemma {:induction false} DecodeEachFlatten(frames: seq<string>, parts: seq<seq<Message>>)
    requires |frames| == |parts|
    requires forall k | 0 <= k < |frames| :: Decode(frames[k]) == parts[k]
    ensures DecodeEach(frames) == Flatten(parts)
  {
    if frames != [] {
      DecodeEachFlatten(frames[1..], parts[1..]);
    }
  }

  /** Two frames of one message each read back as those two messages. */
  lemma DecodePair(a: string, b: string, ma: Message, mb: Message)
    requires Framed(a) && Decode(a) == [ma]
    requires Framed(b) && Decode(b) == [mb]
    ensures Decode(Concat([a, b])) == [ma, mb]
  {
    DecodeFrames([a, b]);
    DecodeEachSingles([a, b], [ma, mb]);
  }
}
