/** controllers/question_controller.py: the `POST /stream/ask-question`
    handler. It rejects a body that is not JSON and a question that is
    missing or blank with a fixed `error`, `end` pair, and otherwise streams
    the completion service's answer to the stripped question. */
module QuestionController {
  import opened Base
  import opened Json
  import opened EventStream
  import opened Common
  import OpenAiService

  // ---------------------------------------------------------------------
  // Python's str.strip()

  /** The characters `str.isspace` accepts, which `str.strip()` with no
      argument removes from both ends. */
  predicate IsSpace(c: char) {
    var n := c as int;
    || (9 <= n <= 13) || (0x1C <= n <= 0x20) || n == 0x85 || n == 0xA0 || n == 0x1680
    || (0x2000 <= n <= 0x200A) || n == 0x2028 || n == 0x2029 || n == 0x202F
    || n == 0x205F || n == 0x3000
  }

  predicate AllSpace(s: string) {
    forall k | 0 <= k < |s| :: IsSpace(s[k])
  }

  /** The number of whitespace characters `s` starts with. */
  function Lead(s: string): (n: nat)
    ensures n <= |s|
    ensures forall k | 0 <= k < n :: IsSpace(s[k])
    ensures n < |s| ==> !IsSpace(s[n])
  {
    if s != [] && IsSpace(s[0]) then 1 + Lead(s[1..]) else 0
  }

  /** The number of whitespace characters `s` ends with. */
  function Trail(s: string): (n: nat)
    ensures n <= |s|
    ensures forall k | |s| - n <= k < |s| :: IsSpace(s[k])
    ensures n < |s| ==> !IsSpace(s[|s| - n - 1])
  {
    if s != [] && IsSpace(s[|s| - 1]) then 1 + Trail(s[..|s| - 1]) else 0
  }

  /** `s.strip()`: the text between the leading and the trailing
      whitespace. */
  function Strip(s: string): string {
    var a := Lead(s);
    if a == |s| then "" else s[a..|s| - Trail(s)]
  }

  /** `s.strip()` is the infix of `s` left when the whitespace at both ends
      is cut off: it starts and ends with a non-space character (or is
      empty), and everything cut off is whitespace. */
  lemma StripSpec(s: string)
    ensures var r := Strip(s);
      && (r == [] || (!IsSpace(r[0]) && !IsSpace(r[|r| - 1])))
      && exists i | 0 <= i <= |s| - |r| :: r == s[i..i + |r|] && AllSpace(s[..i]) && AllSpace(s[i + |r|..])
  {
    var a := Lead(s);
    var r := Strip(s);
    if a == |s| {
      assert r == s[|s|..|s|] && AllSpace(s[..|s|]) && AllSpace(s[|s|..]);
    } else {
      var e := |s| - Trail(s);
      assert r == s[a..a + |r|];
      assert AllSpace(s[..a]);
      assert AllSpace(s[a + |r|..]) by {
        assert s[a + |r|..] == s[e..];
      }
    }
  }

  /** The stripped text is empty exactly when the input is all whitespace. */
  lemma StripEmpty(s: string)
    ensures Strip(s) == "" <==> AllSpace(s)
  {
    if Lead(s) < |s| {
      assert !IsSpace(s[Lead(s)]);
    }
  }

  /** Stripping twice is stripping once. */
  lemma StripIdempotent(s: string)
    ensures Strip(Strip(s)) == Strip(s)
  {
    var r := Strip(s);
    StripSpec(s);
    if r != [] {
      assert Lead(r) == 0;
      assert Trail(r) == 0;
    }
  }

  // ---------------------------------------------------------------------
  // The handler

  /** The request as the handler sees it after `await request.json()`:
      either the body was not JSON, or it decoded to a value. */
  datatype Request = Unparseable | Parsed(body: Value)

  /** What the handler decides: answer with a fixed error pair, or hand the
      question to the completion service. */
  datatype Handling = Rejected(message: string) | Forwarded(question: string)

  const InvalidJson := "Invalid JSON body"
  const QuestionRequired := "'user_question' is required"

  /** `(body.get("user_question") or "").strip()` and the checks around it.
      A body that is not an object has no `get`, and a truthy
      `user_question` that is not a string has no `strip`: both raise
      `AttributeError`, which the handler does not catch. */
  function Validate(req: Request): Result<Handling> {
    match req
    case Unparseable => Ok(Rejected(InvalidJson))
    case Parsed(body) =>
      if !body.Obj? then Raised("AttributeError")
      else
        var field := Get(body.members, "user_question");
        if field.None? || !Truthy(field.value) then Ok(Rejected(QuestionRequired))
        else if !field.value.Str? then Raised("AttributeError")
        else
          var question := Strip(field.value.s);
          if question == "" then Ok(Rejected(QuestionRequired)) else Ok(Forwarded(question))
  }

  /** The fixed response of a rejected request. */
  function RejectionFrames(message: string): seq<string> {
    [Sse("error", Obj([Member("message", Str(message))])),
     Sse("end", Obj([Member("finish_reason", Str("error"))]))]
  }

  /** The frames the handler streams, `serve` standing for
      `OpenAIService.ask_question_stream_response`. */
  function Respond(req: Request, serve: string -> seq<string>): Result<seq<string>> {
    match Validate(req)
    case Raised(m) => Raised(m)
    case Ok(Rejected(m)) => Ok(RejectionFrames(m))
    case Ok(Forwarded(q)) => Ok(serve(q))
  }

  /** A `user_question` the handler treats as missing: absent, falsy
      (`null`, `""`, `false`, `0`, `[]`, `{}`), or a string of whitespace. */
  predicate Blank(field: Option<Value>) {
    field.None? || !Truthy(field.value) || (field.value.Str? && AllSpace(field.value.s))
  }

  // ---------------------------------------------------------------------
  // Properties

  /** A body that is not JSON is answered with the `Invalid JSON body` pair,
      whatever the service would have done. */
  lemma InvalidJsonRejected(serve: string -> seq<string>)
    ensures Respond(Unparseable, serve) == Ok(RejectionFrames(InvalidJson))
  {
  }

  /** For an object body whose `user_question` is absent, falsy or a string,
      the request is rejected with `'user_question' is required` exactly
      when the question is blank: the handler then answers with that
      message's `error`/`end` pair, and otherwise with the service's stream
      of the stripped question. */
  lemma BlankRejected(members: seq<Member>, serve: string -> seq<string>)
    requires var f := Get(members, "user_question"); f.None? || !Truthy(f.value) || f.value.Str?
    ensures Validate(Parsed(Obj(members))).Ok?
    ensures Validate(Parsed(Obj(members))) == Ok(Rejected(QuestionRequired)) <==> Blank(Get(members, "user_question"))
    ensures Blank(Get(members, "user_question")) ==>
      Respond(Parsed(Obj(members)), serve) == Ok(RejectionFrames(QuestionRequired))
    ensures !Blank(Get(members, "user_question")) ==>
      Respond(Parsed(Obj(members)), serve) == Ok(serve(Strip(Get(members, "user_question").value.s)))
  {
    var f := Get(members, "user_question");
    if f.Some? && Truthy(f.value) {
      StripEmpty(f.value.s);
    }
  }

  /** Otherwise the service receives the stripped question, which is
      non-empty, has no surrounding whitespace and is unchanged by a second
      strip. */
  lemma QuestionForwarded(members: seq<Member>)
    requires var f := Get(members, "user_question"); f.Some? && f.value.Str? && !AllSpace(f.value.s)
    ensures var q := Strip(Get(members, "user_question").value.s);
      && Validate(Parsed(Obj(members))) == Ok(Forwarded(q))
      && q != "" && !IsSpace(q[0]) && !IsSpace(q[|q| - 1]) && Strip(q) == q
  {
    var s := Get(members, "user_question").value.s;
    StripEmpty(s);
    StripSpec(s);
    StripIdempotent(s);
    assert s != "";
  }

  /** The handler fails with `AttributeError` exactly when the body is not an
      object, or its `user_question` is truthy but not a string; that is the
      only exception it raises, and it streams nothing then. */
  lemma RaisesSpec(req: Request, serve: string -> seq<string>)
    ensures Validate(req) == Raised("AttributeError") <==>
      req.Parsed? && (!req.body.Obj? ||
        (var f := Get(req.body.members, "user_question"); f.Some? && Truthy(f.value) && !f.value.Str?))
    ensures Respond(req, serve).Raised? <==> Validate(req) == Raised("AttributeError")
    ensures Respond(req, serve).Raised? ==> Respond(req, serve) == Raised("AttributeError")
  {
    if req.Parsed? && req.body.Obj? {
      var f := Get(req.body.members, "user_question");
      if f.Some? && Truthy(f.value) && f.value.Str? {
        StripEmpty(f.value.s);
      }
    }
  }

  /** A rejected request never reaches the service: its response is the
      rejection's `error`/`end` pair whatever the service would stream. An
      accepted one is exactly the service's stream for the question, and an
      exception from the checks propagates. */
  lemma EarlyReturn(req: Request, serve1: string -> seq<string>, serve2: string -> seq<string>)
    ensures Validate(req).Ok? && Validate(req).value.Rejected? ==> Respond(req, serve1) == Respond(req, serve2)
    ensures Validate(req).Ok? && Validate(req).value.Rejected? ==>
      Respond(req, serve1) == Ok(RejectionFrames(Validate(req).value.message))
    ensures Validate(req).Raised? ==> Respond(req, serve1) == Raised(Validate(req).message)
    ensures Validate(req).Ok? && Validate(req).value.Forwarded? ==>
      Respond(req, serve1) == Ok(serve1(Validate(req).value.question))
  {
  }

  /** The two frames of a rejection are the completion service's `error`
      frame with the message and its `end` frame with reason `error`. */
  lemma RejectionFramesRender(message: string)
    ensures RejectionFrames(message)[0] == OpenAiService.Render(OpenAiService.ErrorFrame(message))
    ensures RejectionFrames(message)[1] == OpenAiService.Render(OpenAiService.End(OpenAiService.Errored))
  {
    var e := OpenAiService.ErrorFrame(message);
    var d := OpenAiService.End(OpenAiService.Errored);
    assert OpenAiService.EventName(e) == "error";
    assert OpenAiService.Payload(e) == Obj([Member("message", Str(message))]);
    assert OpenAiService.EventName(d) == "end";
    assert OpenAiService.Payload(d) == Obj([Member("finish_reason", Str("error"))]);
  }

  /** A rejection is two frames, `error` with the message then `end` with
      reason `error`: the same frames the completion service sends after
      `start` when its upstream fails with that message. */
  lemma RejectionIsFailureEnding(message: string)
    ensures |RejectionFrames(message)| == 2
    ensures RejectionFrames(message) == OpenAiService.RenderAll(OpenAiService.Ending(Some(message)))
  {
    var e := OpenAiService.ErrorFrame(message);
    var d := OpenAiService.End(OpenAiService.Errored);
    var ending := OpenAiService.Ending(Some(message));
    assert ending == [e, d];
    var rendered := OpenAiService.RenderAll(ending);
    assert rendered == [OpenAiService.Render(e), OpenAiService.Render(d)] by {
      assert |rendered| == 2;
      assert rendered[0] == OpenAiService.Render(ending[0]);
      assert rendered[1] == OpenAiService.Render(ending[1]);
    }
    var fs := RejectionFrames(message);
    assert fs == [fs[0], fs[1]];
    RejectionFramesRender(message);
  }

  /** A client reads a rejection as two messages, `error` with the message
      and `end` with reason `error`, as it reads the failure ending of a
      completion stream. */
  lemma RejectionDecodes(message: string)
    ensures Decode(Concat(RejectionFrames(message))) ==
      OpenAiService.Received(OpenAiService.ErrorFrame(message))
      + OpenAiService.Received(OpenAiService.End(OpenAiService.Errored))
  {
    var fs := RejectionFrames(message);
    var e := OpenAiService.ErrorFrame(message);
    var d := OpenAiService.End(OpenAiService.Errored);
    var me := OpenAiService.Received(e)[0];
    var md := OpenAiService.Received(d)[0];
    assert Framed(fs[0]) && Decode(fs[0]) == [me] by {
      RejectionFramesRender(message);
      OpenAiService.RenderDecodes(e);
    }
    assert Framed(fs[1]) && Decode(fs[1]) == [md] by {
      RejectionFramesRender(message);
      OpenAiService.RenderDecodes(d);
    }
    assert fs == [fs[0], fs[1]];
    DecodePair(fs[0], fs[1], me, md);
  }
}
