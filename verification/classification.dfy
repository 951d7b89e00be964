/** mcp/classification/main.py, the `classify_tech` tool: the clamp of
    `top_k`, the choice of the text that holds the model's JSON answer, and
    the post-processing of the decoded answer. The model calls themselves
    are inputs: what the Responses API call returned or raised, what the
    Chat Completions fallback returned or raised, and `json.loads`. */
module Classification {
  import opened Base
  import opened Json

  // ---------------------------------------------------------------------
  // The fixed categories

  /** `CATEGORIES`: the fourteen Vietnamese technology domains. */
  const Categories: seq<string> := [
    "Công nghệ số",
    "Hành chính công",
    "Đô thị thông minh",
    "Y tế số",
    "Giáo dục thông minh",
    "Nông nghiệp công nghệ cao",
    "Tài chính số",
    "Du lịch thông minh",
    "An ninh mạng",
    "Công nghệ viễn thám",
    "Cơ khí - tự động hóa",
    "Công nghệ sinh học",
    "Môi trường – năng lượng",
    "Vật liệu mới"
  ]

  /** The labels of the `Literal` type of `LabelScore.label`. */
  const LabelLiteral: seq<string> := [
    "Công nghệ số",
    "Hành chính công",
    "Đô thị thông minh",
    "Y tế số",
    "Giáo dục thông minh",
    "Nông nghiệp công nghệ cao",
    "Tài chính số",
    "Du lịch thông minh",
    "An ninh mạng",
    "Công nghệ viễn thám",
    "Cơ khí - tự động hóa",
    "Công nghệ sinh học",
    "Môi trường – năng lượng",
    "Vật liệu mới"
  ]

  /** There are fourteen categories, all different, and the `Literal` type
      names the same labels in the same order. */
  lemma CategoriesSpec()
    ensures |Categories| == 14
    ensures forall i, j | 0 <= i < j < |Categories| :: Categories[i] != Categories[j]
    ensures LabelLiteral == Categories
    ensures (set l | l in LabelLiteral) == (set l | l in Categories)
  {
  }

  // ---------------------------------------------------------------------
  // top_k

  /** `max(1, min(5, int(top_k)))` for an integer `top_k`. */
  function ClampTopK(k: int): (r: int)
    ensures 1 <= r <= 5
    ensures 1 <= k <= 5 ==> r == k
    ensures k < 1 ==> r == 1
    ensures k > 5 ==> r == 5
  {
    if k < 1 then 1 else if k > 5 then 5 else k
  }

  /** Clamping twice is clamping once. */
  lemma ClampIdempotent(k: int)
    ensures ClampTopK(ClampTopK(k)) == ClampTopK(k)
  {
  }

  // ---------------------------------------------------------------------
  // The text of the answer

  /** A content block of a Responses output item: its `type` and its `text`
      attributes, `None` when absent. */
  datatype Block = Block(kind: Option<string>, text: Option<string>)

  /** An output item: its `content` list, `None` when absent or `None`. */
  datatype Item = Item(content: Option<seq<Block>>)

  /** A Responses API result: its `output_text` convenience attribute and
      its `output` list, each `None` when absent or `None`. */
  datatype Response = Response(outputText: Option<string>, output: Option<seq<Item>>)

  const NoJsonText := "No JSON text found in Responses output"

  /** A block that holds the answer: of type `output_text`, with text. */
  predicate Qualifies(b: Block) {
    b.kind == Some("output_text") && HasText(b.text)
  }

  /** `getattr(item, "content", []) or []`. */
  function Blocks(item: Item): seq<Block> {
    if item.content.Some? then item.content.value else []
  }

  /** `getattr(resp, "output", []) or []`. */
  function Items(resp: Response): seq<Item> {
    if resp.output.Some? then resp.output.value else []
  }

  /** The blocks of `items`, item after item: the order of the nested scan. */
  function BlocksOf(items: seq<Item>): seq<Block> {
    if items == [] then [] else Blocks(items[0]) + BlocksOf(items[1..])
  }

  /** The text of the first block that holds the answer, if any. */
  function FirstText(bs: seq<Block>): Option<string> {
    if bs == [] then None
    else if Qualifies(bs[0]) then Some(bs[0].text.value)
    else FirstText(bs[1..])
  }

  /** Reference definition of `_extract_json_from_responses`. */
  function ExtractText(resp: Response): Result<string> {
    if HasText(resp.outputText) then Ok(resp.outputText.value)
    else match FirstText(BlocksOf(Items(resp)))
      case Some(t) => Ok(t)
      case None => Raised(NoJsonText)
  }

  /** The first answer block is found exactly when one exists; its text is
      that of the earliest such block, and it is never empty. */
  lemma {:induction false} FirstTextSpec(bs: seq<Block>)
    ensures FirstText(bs).Some? <==> exists k | 0 <= k < |bs| :: Qualifies(bs[k])
    ensures FirstText(bs).Some? ==>
      && FirstText(bs).value != ""
      && exists k | 0 <= k < |bs| :: Qualifies(bs[k]) && FirstText(bs).value == bs[k].text.value &&
           forall m | 0 <= m < k :: !Qualifies(bs[m])
  {
    if bs != [] && !Qualifies(bs[0]) {
      FirstTextSpec(bs[1..]);
      if FirstText(bs[1..]).Some? {
        var k :| 0 <= k < |bs[1..]| && Qualifies(bs[1..][k]) && FirstText(bs[1..]).value == bs[1..][k].text.value &&
          forall m | 0 <= m < k :: !Qualifies(bs[1..][m]);
        assert Qualifies(bs[k + 1]);
        forall m | 0 <= m < k + 1
          ensures !Qualifies(bs[m])
        {
          if m > 0 {
            assert bs[m] == bs[1..][m - 1];
          }
        }
      } else {
        forall k | 0 <= k < |bs|
          ensures !Qualifies(bs[k])
        {
          if k > 0 {
            assert bs[k] == bs[1..][k - 1];
          }
        }
      }
    } else if bs != [] {
      assert Qualifies(bs[0]);
    }
  }

  /** `_extract_json_from_responses(resp)`: `output_text` when it is truthy;
      otherwise the text of the first block, scanning the items in order and
      each item's content in order, whose type is `output_text` and whose
      text is truthy; otherwise `RuntimeError`. */
  method ExtractJsonFromResponses(resp: Response) returns (r: Result<string>)
    ensures r == ExtractText(resp)
  {
    if HasText(resp.outputText) {
      return Ok(resp.outputText.value);
    }
    var items := Items(resp);
    var i := 0;
    while i < |items|
      invariant 0 <= i <= |items|
      invariant FirstText(BlocksOf(items)) == FirstText(BlocksOf(items[i..]))
    {
      var blocks := Blocks(items[i]);
      assert BlocksOf(items[i..]) == blocks + BlocksOf(items[i + 1..]) by {
        assert items[i..][0] == items[i];
        assert items[i..][1..] == items[i + 1..];
      }
      var j := 0;
      while j < |blocks|
        invariant 0 <= j <= |blocks|
        invariant FirstText(BlocksOf(items)) == FirstText(blocks[j..] + BlocksOf(items[i + 1..]))
      {
        var rest := blocks[j..] + BlocksOf(items[i + 1..]);
        assert rest[0] == blocks[j];
        assert rest[1..] == blocks[j + 1..] + BlocksOf(items[i + 1..]);
        if Qualifies(blocks[j]) {
          return Ok(blocks[j].text.value);
        }
        j := j + 1;
      }
      assert blocks[j..] + BlocksOf(items[i + 1..]) == BlocksOf(items[i + 1..]);
      i := i + 1;
    }
    assert items[i..] == [];
    return Raised(NoJsonText);
  }

  /** What the extraction promises: `output_text` wins when truthy;
      otherwise the answer is the earliest qualifying block in scan order,
      found exactly when one exists; the text returned is never empty; a
      failure is the `RuntimeError` about missing JSON text. */
  lemma ExtractTextSpec(resp: Response)
    ensures HasText(resp.outputText) ==> ExtractText(resp) == Ok(resp.outputText.value)
    ensures !HasText(resp.outputText) ==>
      (ExtractText(resp).Ok? <==> exists k | 0 <= k < |BlocksOf(Items(resp))| :: Qualifies(BlocksOf(Items(resp))[k]))
    ensures !HasText(resp.outputText) && ExtractText(resp).Ok? ==>
      var bs := BlocksOf(Items(resp));
      exists k | 0 <= k < |bs| :: Qualifies(bs[k]) && ExtractText(resp).value == bs[k].text.value &&
        forall m | 0 <= m < k :: !Qualifies(bs[m])
    ensures ExtractText(resp).Ok? ==> ExtractText(resp).value != ""
    ensures ExtractText(resp).Raised? ==> ExtractText(resp).message == NoJsonText
  {
    var bs := BlocksOf(Items(resp));
    FirstTextSpec(bs);
    if !HasText(resp.outputText) {
      assert ExtractText(resp).Ok? <==> FirstText(bs).Some?;
    }
  }

  /** How `_call_responses_api()` ended: with a result, or by raising
      (`TypeError` or another exception). */
  datatype Attempt = Responded(resp: Response) | Threw(typeError: bool, message: string)

  /** The `try`/`except TypeError` block: the Responses path, or on
      `TypeError` the Chat Completions fallback, whose outcome is `fallback`
      (the message content, or what it raised). Any other exception,
      including the extraction's `RuntimeError`, propagates. */
  function AnswerText(attempt: Attempt, fallback: Result<Option<string>>): Result<string> {
    match attempt
    case Responded(resp) => ExtractText(resp)
    case Threw(typeError, m) =>
      if !typeError then Raised(m)
      else match fallback
        case Raised(m2) => Raised(m2)
        case Ok(content) => Ok(if HasText(content) then content.value else "{}")
  }

  /** Only a `TypeError` of the Responses call reaches the fallback; any other
      exception propagates, and so does one raised by the fallback call. An
      empty or missing fallback content becomes `"{}"`. Any text chosen is
      non-empty. */
  lemma AnswerTextSpec(attempt: Attempt, fallback: Result<Option<string>>, other: Result<Option<string>>)
    ensures attempt.Responded? ==> AnswerText(attempt, fallback) == ExtractText(attempt.resp)
    ensures attempt.Threw? && !attempt.typeError ==> AnswerText(attempt, fallback) == Raised(attempt.message)
    ensures attempt.Threw? && attempt.typeError && fallback.Raised? ==>
      AnswerText(attempt, fallback) == Raised(fallback.message)
    ensures !(attempt.Threw? && attempt.typeError) ==> AnswerText(attempt, fallback) == AnswerText(attempt, other)
    ensures attempt.Threw? && attempt.typeError && fallback.Ok? && !HasText(fallback.value) ==>
      AnswerText(attempt, fallback) == Ok("{}")
    ensures attempt.Threw? && attempt.typeError && fallback.Ok? && HasText(fallback.value) ==>
      AnswerText(attempt, fallback) == Ok(fallback.value.value)
    ensures AnswerText(attempt, fallback).Ok? ==> AnswerText(attempt, fallback).value != ""
  {
    if attempt.Responded? {
      ExtractTextSpec(attempt.resp);
    }
  }

  // ---------------------------------------------------------------------
  // Post-processing

  /** Where the slice `xs[:k]` of a sequence of length `n` ends, with
      Python's reading of a negative bound as counted from the end. */
  function SliceEnd(n: nat, k: int): (e: nat)
    ensures e <= n
    ensures k >= 0 ==> e == if k < n then k else n
    ensures k < 0 ==> e == if n + k > 0 then n + k else 0
  {
    if k >= 0 then (if k < n then k else n) else if n + k > 0 then n + k else 0
  }

  /** `value[:k]`: a list or a string keeps its first elements; any other
      value cannot be sliced. */
  function Slice(v: Value, k: int): Result<Value> {
    match v
    case Arr(xs) => Ok(Arr(xs[..SliceEnd(|xs|, k)]))
    case Str(s) => Ok(Str(s[..SliceEnd(|s|, k)]))
    case _ => Raised("top_labels cannot be sliced")
  }

  /** `parsed.get("top_labels", [])`. */
  function LabelsOf(ms: seq<Member>): Value {
    match Get(ms, "top_labels")
    case Some(v) => v
    case None => Arr([])
  }

  /** Lines 185-187: overwrite `query`, cut `top_labels` to its first `k`
      entries, default `suggested_next_actions` to `[]`. Assigning a key of
      a decoded value that is not an object raises `TypeError`. */
  function PostProcess(parsed: Value, query: string, k: int): Result<Value> {
    if !parsed.Obj? then Raised("TypeError")
    else
      var withQuery := Put(parsed.members, "query", Str(query));
      match Slice(LabelsOf(withQuery), k)
      case Raised(m) => Raised(m)
      case Ok(labels) =>
        var withLabels := Put(withQuery, "top_labels", labels);
        Ok(Obj(SetDefault(withLabels, "suggested_next_actions", Arr([]))))
  }

  /** `key` followed by nothing when it is already among `keys`. */
  function NewKey(keys: seq<string>, key: string): seq<string> {
    if key in keys then [] else [key]
  }

  /** Post-processing fails exactly when the answer is not an object or its
      `top_labels` is neither a list nor a string. */
  lemma PostProcessFails(parsed: Value, query: string, k: int)
    ensures PostProcess(parsed, query, k).Raised? <==>
      !parsed.Obj? || !(LabelsOf(parsed.members).Arr? || LabelsOf(parsed.members).Str?)
  {
    if parsed.Obj? {
      LabelsAfterQuery(parsed.members, query);
    }
  }

  /** Writing `query` leaves `top_labels` alone. */
  lemma LabelsAfterQuery(ms: seq<Member>, query: string)
    ensures LabelsOf(Put(ms, "query", Str(query))) == LabelsOf(ms)
  {
    PutOther(ms, "query", Str(query), "top_labels");
  }

  lemma PutOther(ms: seq<Member>, key: string, value: Value, other: string)
    requires other != key
    ensures Get(Put(ms, key, value), other) == Get(ms, other)
  {
    PutSpec(ms, key, value);
  }

  /** Two assignments and a `setdefault` of three different keys. */
  lemma ThreeAssignments(ms: seq<Member>, k1: string, v1: Value, k2: string, v2: Value, k3: string, v3: Value)
    requires k1 != k2 && k1 != k3 && k2 != k3
    ensures var r := SetDefault(Put(Put(ms, k1, v1), k2, v2), k3, v3);
      && Get(r, k1) == Some(v1)
      && Get(r, k2) == Some(v2)
      && Get(r, k3) == (if Get(ms, k3).Some? then Get(ms, k3) else Some(v3))
      && (forall other | other != k1 && other != k2 && other != k3 :: Get(r, other) == Get(ms, other))
  {
    var m1 := Put(ms, k1, v1);
    var m2 := Put(m1, k2, v2);
    PutSpec(ms, k1, v1);
    PutSpec(m1, k2, v2);
    SetDefaultSpec(m2, k3, v3);
  }

  /** The members after the three assignments, `labels` being the sliced
      `top_labels`: the query and the labels are stored, the suggestions
      are kept or defaulted, and every other member is unchanged. */
  lemma AssignmentsSpec(ms: seq<Member>, query: string, labels: Value)
    ensures var r := SetDefault(Put(Put(ms, "query", Str(query)), "top_labels", labels), "suggested_next_actions", Arr([]));
      && Get(r, "query") == Some(Str(query))
      && Get(r, "top_labels") == Some(labels)
      && Get(r, "suggested_next_actions") ==
           (if Get(ms, "suggested_next_actions").Some? then Get(ms, "suggested_next_actions") else Some(Arr([])))
      && (forall other | other != "query" && other != "top_labels" && other != "suggested_next_actions" ::
            Get(r, other) == Get(ms, other))
  {
    ThreeAssignments(ms, "query", Str(query), "top_labels", labels, "suggested_next_actions", Arr([]));
  }

  /** The keys after the three assignments: the original ones in their
      order, then those of the three that were missing, in assignment
      order. */
  lemma AssignmentsKeys(ms: seq<Member>, query: string, labels: Value)
    ensures var r := SetDefault(Put(Put(ms, "query", Str(query)), "top_labels", labels), "suggested_next_actions", Arr([]));
      Keys(r) == Keys(ms) + NewKey(Keys(ms), "query") + NewKey(Keys(ms), "top_labels")
        + NewKey(Keys(ms), "suggested_next_actions")
  {
    var m1 := Put(ms, "query", Str(query));
    var m2 := Put(m1, "top_labels", labels);
    assert Keys(m1) == Keys(ms) + NewKey(Keys(ms), "query") by {
      PutSpec(ms, "query", Str(query));
    }
    assert Keys(m2) == Keys(m1) + NewKey(Keys(ms), "top_labels") by {
      PutSpec(m1, "top_labels", labels);
    }
    assert Keys(SetDefault(m2, "suggested_next_actions", Arr([]))) == Keys(m2) + NewKey(Keys(ms), "suggested_next_actions") by {
      SetDefaultSpec(m2, "suggested_next_actions", Arr([]));
    }
  }

  /** `top_labels` keeps the first `min(len, k)` entries of the list (or
      string) the model returned, and none when it returned no such field. */
  lemma LabelsPrefix(parsed: Value, query: string, k: int)
    requires k >= 0
    requires parsed.Obj? && PostProcess(parsed, query, k).Ok?
    ensures var r := PostProcess(parsed, query, k).value;
      var labels := LabelsOf(parsed.members);
      && r.Obj?
      && (labels.Arr? ==>
            Get(r.members, "top_labels") == Some(Arr(labels.items[..if k < |labels.items| then k else |labels.items|])))
      && (labels.Str? ==>
            Get(r.members, "top_labels") == Some(Str(labels.s[..if k < |labels.s| then k else |labels.s|])))
      && (Get(parsed.members, "top_labels").None? ==> Get(r.members, "top_labels") == Some(Arr([])))
  {
    var ms := parsed.members;
    LabelsAfterQuery(ms, query);
    var labels := Slice(LabelsOf(ms), k).value;
    assert Get(PostProcess(parsed, query, k).value.members, "top_labels") == Some(labels) by {
      AssignmentsSpec(ms, query, labels);
    }
  }

  /** Whatever the model returned, a processed answer holds the caller's
      query, the model's suggestions or `[]`, and every other member of the
      model's answer unchanged; keys keep their order and new ones go
      last. */
  lemma PostProcessSpec(parsed: Value, query: string, k: int)
    requires parsed.Obj? && PostProcess(parsed, query, k).Ok?
    ensures var ms := parsed.members;
      var r := PostProcess(parsed, query, k).value;
      && r.Obj?
      && Get(r.members, "query") == Some(Str(query))
      && Get(r.members, "top_labels").Some?
      && Get(r.members, "suggested_next_actions") ==
           (if Get(ms, "suggested_next_actions").Some? then Get(ms, "suggested_next_actions") else Some(Arr([])))
      && (forall other | other != "query" && other != "top_labels" && other != "suggested_next_actions" ::
            Get(r.members, other) == Get(ms, other))
      && Keys(r.members) == Keys(ms) + NewKey(Keys(ms), "query") + NewKey(Keys(ms), "top_labels")
           + NewKey(Keys(ms), "suggested_next_actions")
  {
    var ms := parsed.members;
    PutSpec(ms, "query", Str(query));
    var labels := Slice(LabelsOf(Put(ms, "query", Str(query))), k).value;
    AssignmentsSpec(ms, query, labels);
    AssignmentsKeys(ms, query, labels);
  }

  /** `classify_tech(query, top_k)` after the model calls: the text is
      chosen, decoded by `loads` (standing for `json.loads`), and
      post-processed with the clamped `top_k`. */
  function ClassifyTech(query: string, topK: int, attempt: Attempt, fallback: Result<Option<string>>,
                        loads: string -> Result<Value>): Result<Value>
  {
    match AnswerText(attempt, fallback)
    case Raised(m) => Raised(m)
    case Ok(text) =>
      match loads(text)
      case Raised(m) => Raised(m)
      case Ok(parsed) => PostProcess(parsed, query, ClampTopK(topK))
  }

  /** An error choosing the answer text, or decoding it, propagates
      unchanged, and a decoded answer that is not an object or whose
      `top_labels` cannot be sliced makes the classification fail. A
      classification that succeeds is an object that echoes the query,
      keeps the first `ClampTopK(top_k)` of the model's labels (so never
      more than five in a list, whatever `top_k` the caller passed), keeps
      the model's `suggested_next_actions` or sets `[]`, and leaves every
      other member of the model's answer as it was. */
  lemma ClassifyTechSpec(query: string, topK: int, attempt: Attempt, fallback: Result<Option<string>>,
                         loads: string -> Result<Value>)
    ensures var answer := AnswerText(attempt, fallback);
      answer.Raised? ==> ClassifyTech(query, topK, attempt, fallback, loads) == Raised(answer.message)
    ensures var answer := AnswerText(attempt, fallback);
      answer.Ok? && loads(answer.value).Raised? ==>
        ClassifyTech(query, topK, attempt, fallback, loads) == Raised(loads(answer.value).message)
    ensures var answer := AnswerText(attempt, fallback);
      answer.Ok? && loads(answer.value).Ok? ==>
        var parsed := loads(answer.value).value;
        (ClassifyTech(query, topK, attempt, fallback, loads).Raised? <==>
           !parsed.Obj? || !(LabelsOf(parsed.members).Arr? || LabelsOf(parsed.members).Str?))
    ensures var r := ClassifyTech(query, topK, attempt, fallback, loads);
      r.Ok? ==>
        var ms := loads(AnswerText(attempt, fallback).value).value.members;
        && Get(r.value.members, "suggested_next_actions") ==
             (if Get(ms, "suggested_next_actions").Some? then Get(ms, "suggested_next_actions") else Some(Arr([])))
        && (forall other | other != "query" && other != "top_labels" && other != "suggested_next_actions" ::
              Get(r.value.members, other) == Get(ms, other))
    ensures var r := ClassifyTech(query, topK, attempt, fallback, loads);
      r.Ok? ==>
        var parsed := loads(AnswerText(attempt, fallback).value).value;
        var labels := LabelsOf(parsed.members);
        var k := ClampTopK(topK);
        && AnswerText(attempt, fallback).Ok?
        && loads(AnswerText(attempt, fallback).value).Ok?
        && parsed.Obj?
        && (labels.Arr? ==>
              Get(r.value.members, "top_labels") == Some(Arr(labels.items[..if k < |labels.items| then k else |labels.items|])))
        && (labels.Str? ==>
              Get(r.value.members, "top_labels") == Some(Str(labels.s[..if k < |labels.s| then k else |labels.s|])))
    ensures var r := ClassifyTech(query, topK, attempt, fallback, loads);
      r.Ok? ==>
        && r.value.Obj?
        && Get(r.value.members, "query") == Some(Str(query))
        && Get(r.value.members, "suggested_next_actions").Some?
        && Get(r.value.members, "top_labels").Some?
        && (Get(r.value.members, "top_labels").value.Arr? ==>
              |Get(r.value.members, "top_labels").value.items| <= 5)
  {
    var r := ClassifyTech(query, topK, attempt, fallback, loads);
    var answer := AnswerText(attempt, fallback);
    if answer.Ok? && loads(answer.value).Ok? {
      PostProcessFails(loads(answer.value).value, query, ClampTopK(topK));
    }
    if r.Ok? {
      var text := AnswerText(attempt, fallback).value;
      var parsed := loads(text).value;
      PostProcessSpec(parsed, query, ClampTopK(topK));
      LabelsPrefix(parsed, query, ClampTopK(topK));
      PostProcessFails(parsed, query, ClampTopK(topK));
    }
  }
}
