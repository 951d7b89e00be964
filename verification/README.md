# Server-sent-events bridge of ai-chat-core-service, in Dafny

This project models the streaming core of a small chat backend. The backend
forwards a user's question to a language model, or to a tool-using agent,
and streams the answer to a browser as a `text/event-stream` response. It
also serves a classification tool.

The model covers five pieces:

- **Frame builders.** `Common.Sse` is `sse(event, data)`: an `event:` line,
  a `data:` line and a blank line. `Common.Heartbeat` is `heartbeat()`, the
  comment frame `: ping`. `McpUse.Frame` is `_sse(event, data)`: it writes
  the `event:` line only when the name is truthy (neither `None` nor `""`),
  and the `data:` line whenever the data is not `None`. `Common.PayloadText`
  puts string data on the line verbatim and any other value as
  `json.dumps(data, ensure_ascii=False)`, which `Json.Dumps` models
  concretely.
- **Agent stream.** `McpUse.StreamMcp` is `stream_mcp`, and `McpUse.Plan`
  its frames before rendering. The agent is replaced by the list of items it
  yields, plus the exception it may raise afterwards. An item is a final
  answer, a tool step, or something that cannot be unpacked. The frames are
  `status`, one frame per item up to the first item that cannot be
  unpacked, an `error` when the loop ended by an exception, then `[DONE]`.
- **Completion stream.** `OpenAiService.AskQuestionStreamResponse` is
  `OpenAIService.ask_question_stream_response`, and `OpenAiService.Plan` its
  frames before rendering. The upstream token stream is replaced by its
  chunks and an optional exception. The clock is replaced by the readings
  the code takes. The frames are `start`, then `delta` frames and
  heartbeats, then `end` (preceded by `error` when the upstream raised).
- **Request handler.** `QuestionController.Validate` is the body check of
  `POST /stream/ask-question`, `QuestionController.Strip` is `str.strip()`,
  and `QuestionController.Respond` is the handler: a body that is not JSON,
  or a missing, falsy or blank question, gets a fixed `error`/`end` pair; a
  JSON body that is not an object, or a truthy `user_question` that is not a
  string, makes the handler raise `AttributeError` and nothing is streamed;
  otherwise the completion for the stripped question is streamed.
- **Classifier.** `Classification.ClassifyTech` is `classify_tech` after the
  model calls. `Classification.ClampTopK` clamps `top_k`.
  `Classification.ExtractJsonFromResponses` is
  `_extract_json_from_responses`, against the reference definition
  `Classification.ExtractText`. `Classification.AnswerText` is the
  `try`/`except TypeError` that falls back to Chat Completions.
  `Classification.PostProcess` is the post-processing of the decoded
  object.

Each frame builder has a partner, `EventStream.Decode`: the receiving side
of an `EventSource`, following section 9.2.6 "Interpreting an event stream"
of the WHATWG HTML Living Standard. The lemmas show what a browser reads
back from every frame and from every whole response. Frames are independent:
decoding a concatenation of frames is decoding each in turn
(`EventStream.DecodeFrames`).

Files: `base.dfy` (options, results, string helpers), `json.dfy` (values,
`json.dumps`, dict operations), `event_stream.dfy` (the decoder),
`common.dfy`, `mcp_use.dfy`, `open_ai_service.dfy`,
`question_controller.dfy`, `classification.dfy`.

Three facts about the code shape the model:

- The agent stream has no label extraction, no truncation of observations
  and no heartbeats.
- Every step overwrites `last_observation`, and a `final` frame carries it
  whenever it is not `None`. A latest step whose observation is itself
  `None` therefore leaves the final answer's text in place, even when an
  earlier step had an observation.
- A heartbeat is decided after a chunk is relayed. It therefore follows that
  chunk's `delta`.

## Model

| member | source | states |
|---|---|---|
| Common.Sse | utils/common.py:4-7 | a frame starts with the line `event: <name>` and ends with `data: <payload>` and a blank line, and has no other characters |
| Common.SseDecodes | utils/common.py:4-7 | for a one-line name, and a one-line payload when the data is a string, the frame is three lines; it leaves the reader's buffers empty; it reads back as exactly one message whose type is the name (`message` when empty) and whose data is the verbatim string or the JSON text |
| Common.HeartbeatInvisible | utils/common.py:9-11 | the heartbeat starts with `:`, is the two lines `: ping` and blank (so it has no `event:` or `data:` line), is a complete frame, and delivers no message |
| Json.DumpsOneLine | utils/common.py:6 | the JSON text of any value contains no CR or LF, so it always fits on one `data:` line |
| Json.EscapeRoundTrip | utils/common.py:6 | the string-literal escaping of `json.dumps` loses nothing: reading the escapes back gives the original string |
| McpUse.FrameText | services/mcp_use.py:11-24 | the four shapes of `_sse`: event and data lines joined by LF, only the event line, only the data line, or two bare line breaks |
| McpUse.FrameEnds | services/mcp_use.py:14-24 | every frame ends with a blank line, and it starts with `event: ` exactly when the event name is truthy (`None` and `""` omit it) |
| McpUse.FrameDecodes | services/mcp_use.py:11-24 | a frame reads back as one message when data is not `None` (typed by the event name, or `message` without one) and as no message otherwise, and leaves the reader's buffers empty |
| McpUse.PlanShape | services/mcp_use.py:36-78 | the agent stream is `status` first, then one frame per item up to the first item that cannot be unpacked (a step forwarded with its tool, input and observation; a final answer carrying the latest step's observation when that is not `None`, else its text), then `[DONE]`, with `error` before it when the loop ended by an exception |
| McpUse.DoneOnlyLast | services/mcp_use.py:36-78 | the `[DONE]` frame is the last frame and appears nowhere else |
| McpUse.RenderNamed | services/mcp_use.py:47-78 | every frame of the agent stream except `[DONE]` starts with an `event:` line |
| McpUse.DoneOnceAtEnd | services/mcp_use.py:52-78 | on every path the last frame is exactly `data: [DONE]` and a blank line, and that text is sent exactly once |
| McpUse.ErrorIffException | services/mcp_use.py:60-78 | an `error` frame is sent exactly when the agent raised or an item could not be unpacked; it carries that message and is followed only by `[DONE]` |
| McpUse.FailureKeepsPrefix | services/mcp_use.py:51-78 | when the agent raises after its items, every frame already sent is kept, and only `error` is put before `[DONE]` |
| McpUse.MalformedActsAsFailure | services/mcp_use.py:60-78 | an item that cannot be unpacked ends the stream exactly as if the agent had raised there with the same message |
| McpUse.StreamMcpDecodes | services/mcp_use.py:36-78 | a browser reading the whole agent response receives one message per frame, in order, whatever text and observations the frames carry |
| OpenAiService.Trunc | services/open_ai_service.py:57 | `int()` of a reading truncates toward zero: the result is within one of the reading, on the side of zero |
| OpenAiService.ResponseId | services/open_ai_service.py:54 | the response id is `resp_` followed by at least one character; for a reading at or after the epoch the rest is all digits and reads back (`Json.DigitsValue`) as the reading in whole milliseconds, truncated |
| OpenAiService.PlanShape | services/open_ai_service.py:49-87 | the completion stream is `start` (id, model, created), then each chunk's segment in order, then `end` with `stop`, or `error` and `end` with `error` when the upstream raised |
| OpenAiService.Framing | services/open_ai_service.py:57-87 | `start` exactly once and first; `end` exactly once and last, with reason `stop` exactly on success; an `error` frame exactly on failure, right before `end`; so heartbeats fall strictly between `start` and `end` |
| OpenAiService.FailureKeepsPrefix | services/open_ai_service.py:60-87 | a failure keeps every frame sent before it and replaces `end` with `stop` by `error` then `end` with `error` |
| OpenAiService.DeltasCarryText | services/open_ai_service.py:70-74 | the `delta` contents are the non-empty chunk contents in order; together they spell the whole streamed text; no `delta` is empty |
| OpenAiService.HeartbeatRule | services/open_ai_service.py:59-79 | a chunk's segment ends with a heartbeat exactly when more than 15 seconds passed since the last heartbeat; it starts with a `delta` of the chunk's content exactly when that content is truthy; it holds one frame per `delta` and heartbeat due, so at most one of each |
| OpenAiService.StreamDecodes | services/open_ai_service.py:49-87 | a browser reading the whole completion response receives one message per frame in order, each with the frame's name and payload JSON; heartbeats deliver nothing |
| QuestionController.StripSpec | controllers/question_controller.py:31 | `strip()` returns the infix left after cutting whitespace off both ends; it is empty or starts and ends with a non-space character |
| QuestionController.StripEmpty | controllers/question_controller.py:31-32 | the stripped text is empty exactly when the input is all whitespace |
| QuestionController.StripIdempotent | controllers/question_controller.py:31 | stripping twice is stripping once |
| QuestionController.InvalidJsonRejected | controllers/question_controller.py:21-29 | a body that is not JSON is answered with the `Invalid JSON body` pair, whatever the service would stream |
| QuestionController.BlankRejected | controllers/question_controller.py:31-38 | for an absent, falsy or string question, the request is rejected with `'user_question' is required` exactly when the question is blank; the handler then answers with exactly that message's `error`/`end{error}` pair, and otherwise with the service's stream of the stripped question |
| QuestionController.QuestionForwarded | controllers/question_controller.py:31-44 | otherwise the service receives the stripped question, which is non-empty, has no surrounding whitespace and is unchanged by a second strip |
| QuestionController.RaisesSpec | controllers/question_controller.py:31 | the handler raises `AttributeError` exactly when the body is not an object, or the question is truthy but not a string; `QuestionController.Respond` raises exactly then, and only `AttributeError` |
| QuestionController.EarlyReturn | controllers/question_controller.py:21-44 | a rejected request's response is its message's `error`/`end` pair, whatever the service; an accepted one is the service's stream for the question; an exception from the checks propagates |
| QuestionController.RejectionIsFailureEnding | controllers/question_controller.py:24-38 | a rejection is two frames, and they are the completion service's failure ending: `error` with the message, then `end` with reason `error` |
| QuestionController.RejectionDecodes | controllers/question_controller.py:24-38 | a browser reads a rejection as the `error` message and then the `end` message with reason `error` |
| Classification.CategoriesSpec | mcp/classification/main.py:28-62 | there are fourteen categories, all different, and the `Literal` type of a label names the same ones in the same order |
| Classification.ClampTopK | mcp/classification/main.py:97 | the clamped `top_k` lies in 1..5, equals the input when that is in range, and is the nearer bound otherwise |
| Classification.ClampIdempotent | mcp/classification/main.py:97 | clamping twice is clamping once |
| Classification.FirstTextSpec | mcp/classification/main.py:160-164 | the block scan finds an answer exactly when a block of type `output_text` with text exists; the answer is the earliest such block's text and is non-empty |
| Classification.ExtractJsonFromResponses | mcp/classification/main.py:154-164 | the nested loop over items and their content blocks returns what the reference extraction defines |
| Classification.ExtractTextSpec | mcp/classification/main.py:154-164 | a truthy `output_text` wins; otherwise the earliest qualifying block in scan order, found exactly when one exists; the text is never empty; a failure is the `RuntimeError` about missing JSON text |
| Classification.AnswerTextSpec | mcp/classification/main.py:167-181 | only a `TypeError` of the Responses call reaches the fallback, whose empty or missing content becomes `"{}"`; any other exception propagates; the chosen text is never empty |
| Classification.PostProcessFails | mcp/classification/main.py:184-186 | post-processing fails exactly when the decoded answer is not an object or its `top_labels` is neither a list nor a string |
| Classification.LabelsPrefix | mcp/classification/main.py:186 | `top_labels` becomes the first `min(len, k)` entries of the returned list or string, and `[]` when the answer had none |
| Classification.PostProcessSpec | mcp/classification/main.py:184-188 | the result holds the caller's query, a `top_labels` entry, the model's suggestions or `[]` when absent, and every other member unchanged; keys keep their order and new keys go last |
| Classification.ClassifyTechSpec | mcp/classification/main.py:97-188 | an error choosing the answer text or from `json.loads` propagates unchanged; a decoded answer fails exactly when it is not an object or its `top_labels` is neither a list nor a string; a successful classification is an object that echoes the query, keeps the first `max(1, min(5, top_k))` of the model's labels (never more than five), keeps the model's `suggested_next_actions` or sets `[]`, and leaves every other member unchanged |
| Json.PutSpec | mcp/classification/main.py:185-186 | assigning a key stores the value, leaves every other key alone, and appends a new key last |
| Json.SetDefaultSpec | mcp/classification/main.py:187 | `setdefault` keeps a present value, stores the default for an absent key, and touches no other key |

## Left out

- Network and SDK calls are not modelled: the OpenAI clients, `MCPClient`, `MCPAgent`, `ChatOpenAI`, `FastMCP` and the model prompts. Their results are inputs: agent items, completion chunks, a Responses result or the exception raised, the fallback's content, and `json.loads` as a function parameter.
- The creation of the client and agent before the `status` frame (services/mcp_use.py:41-45) is not modelled. If it raises, nothing is streamed.
- `time.time()` is not modelled. The readings are inputs of type `real`, with no model of clock precision.
- Floating-point JSON numbers, and so the `confidence` values, are not modelled: numbers are integers.
- The `_json_fallback` serializer and the `str(data)` last resort of `_sse` are not modelled (services/mcp_use.py:18-32). Every value is taken to be JSON-serializable.
- `json.loads` is not modelled, and neither are objects with duplicate keys. `Json.Get` reads the first member with a key.
- Async generator mechanics are not modelled: cancellation on client disconnect, `GeneratorExit`, and `StreamingResponse` with its headers. A response is the list of frames the generator yields.
- `OpenAIService.sumary_files`, `main.py`, `configs/server.py`, `services/__init__.py` and `controllers/root_controller.py` are not modelled. Each is a single network call or plumbing.
- Json.Unescape: reads back only the escapes `Json.Escape` writes. A `\u` escape of a surrogate or of a code point from `E000` up is not decoded as `json.loads` would, because no frame of the model contains one.
- The decoder models only the `event` and `data` fields. `id`, `retry` and the byte-order mark change no message's type or data.
- Classification.ClassifyTech: the `language` argument of `classify_tech` (mcp/classification/main.py:85) is not modelled, because the body never reads it; the default `top_k=3` is not modelled separately, because a call that omits `top_k` is `ClassifyTech` with `topK` equal to 3. `top_k` is an integer. `int()` applied to a non-integer argument is not modelled.
- Classification.Slice: slicing a `top_labels` that is neither a list nor a string raises an exception. The model reports it under one message; Python's exception class and text are not modelled.
- Classification.LabelsPrefix: requires `k >= 0`, because it is stated for a clamped `top_k`. `Classification.SliceEnd` models Python's negative slice bounds separately.
- McpUse.FrameDecodes: stated only for a one-line event name and one-line string data. `_sse` puts string data on one `data:` line verbatim, so a line break inside it would split the frame. The code only ever sends the string `[DONE]`.
- Common.SseDecodes: stated only for a one-line event name and one-line string data, for the same reason. Every caller in the code passes an object.
- Common.Sse: that equal arguments give equal frames is not stated separately. It holds because `Sse` is a function.
