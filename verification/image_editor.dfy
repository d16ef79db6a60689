/**
 The image-to-image client of the DashScope service: the request payload kept
 as one mutable template on the client, and the status decision of the task
 poll. Each poll answer is the decoded body of one status request, or the
 error the HTTP layer raised for it; the wait between polls is left out.
 */
module ImageEditor {
  import opened Wrappers
  import opened OrderedDict
  import opened JsonValue
  import opened JimengErrors

  const SynthesisUrl: string := "https://dashscope.aliyuncs.com/api/v1/services/aigc/image2image/image-synthesis"
  const TaskUrlPrefix: string := "https://dashscope.aliyuncs.com/api/v1/tasks/"
  const Model: string := "wanx2.1-imageedit"
  const EditFunction: string := "stylization_all"
  const UnknownStatus: string := "UNKNOWN"
  const UnknownError: string := "未知错误"

  /** The client: its endpoint, its request headers and the payload template
      that every `build_payload` call writes into and hands out. */
  datatype Editor = Editor(url: string, headers: Dict<string>, template: Value)

  /** The template as the constructor builds it. */
  const InitialTemplate: Value :=
    Obj(map["model" := Str(Model),
            "input" := Obj(map["function" := Str(EditFunction)]),
            "parameters" := Obj(map["n" := Int(1)])])

  /** The shape every template keeps: a dict whose `input` entry is a dict. */
  predicate Shaped(t: Value) {
    t.Obj? && "input" in t.fields && t.fields["input"].Obj?
  }

  /** The constructor: asynchronous mode, a JSON body, and the key as a bearer
      token. */
  function NewEditor(apiKey: string): (r: Editor)
    ensures Shaped(r.template)
    ensures r.url == SynthesisUrl
    ensures Lookup(r.headers, "Authorization") == Some("Bearer " + apiKey)
    ensures Lookup(r.headers, "X-DashScope-Async") == Some("enable")
    ensures DistinctKeys(r.headers)
  {
    var headers := [("X-DashScope-Async", "enable"), ("Content-Type", "application/json"),
                    ("Authorization", "Bearer " + apiKey)];
    assert headers[1..][1..] == [headers[2]];
    Editor(SynthesisUrl, headers, InitialTemplate)
  }

  /** The `input` dict of a shaped template. */
  function Input(t: Value): map<string, Value>
    requires Shaped(t)
  {
    t.fields["input"].fields
  }

  /** `build_payload`: writes the prompt and the base image URL into the
      template's `input` and returns the template itself, so the payload handed
      out and the client's template are one and the same value. Nothing else in
      the template changes. */
  function BuildPayload(e: Editor, prompt: Value, baseImageUrl: Value): (r: (Editor, Value))
    requires Shaped(e.template)
    ensures Shaped(r.0.template) && r.1 == r.0.template
    ensures r.0.url == e.url && r.0.headers == e.headers
    ensures "prompt" in Input(r.1) && Input(r.1)["prompt"] == prompt
    ensures "base_image_url" in Input(r.1) && Input(r.1)["base_image_url"] == baseImageUrl
    ensures forall k :: k in Input(e.template) && k != "prompt" && k != "base_image_url" ==>
              k in Input(r.1) && Input(r.1)[k] == Input(e.template)[k]
    ensures r.1.fields.Keys == e.template.fields.Keys
    ensures forall k :: k in e.template.fields && k != "input" ==> r.1.fields[k] == e.template.fields[k]
  {
    var input := Input(e.template)["prompt" := prompt]["base_image_url" := baseImageUrl];
    var t := Obj(e.template.fields["input" := Obj(input)]);
    (e.(template := t), t)
  }

  /** The template is shared: after a second call no trace of the first call's
      arguments is left in it, and the template equals the one the second call
      alone would leave. */
  lemma {:induction false} LastWriteWins(e: Editor, p1: Value, u1: Value, p2: Value, u2: Value)
    requires Shaped(e.template)
    ensures BuildPayload(BuildPayload(e, p1, u1).0, p2, u2) == BuildPayload(e, p2, u2)
  {
    var i0 := Input(e.template);
    var i1 := i0["prompt" := p1]["base_image_url" := u1];
    assert i1["prompt" := p2]["base_image_url" := u2] == i0["prompt" := p2]["base_image_url" := u2];
    var t1 := BuildPayload(e, p1, u1).0.template;
    assert t1.fields["input" := Obj(i1["prompt" := p2]["base_image_url" := u2])]
        == e.template.fields["input" := Obj(i0["prompt" := p2]["base_image_url" := u2])];
  }

  /** On a fresh client the payload is the fixed model, function and image
      count together with the given prompt and URL. */
  lemma {:induction false} FreshPayload(apiKey: string, prompt: Value, baseImageUrl: Value)
    ensures BuildPayload(NewEditor(apiKey), prompt, baseImageUrl).1 ==
      Obj(map["model" := Str(Model),
              "input" := Obj(map["function" := Str(EditFunction), "prompt" := prompt,
                                 "base_image_url" := baseImageUrl]),
              "parameters" := Obj(map["n" := Int(1)])])
  {
    var t := InitialTemplate;
    assert Input(t) == map["function" := Str(EditFunction)];
    assert Input(t)["prompt" := prompt]["base_image_url" := baseImageUrl]
        == map["function" := Str(EditFunction), "prompt" := prompt, "base_image_url" := baseImageUrl];
  }

  /** The URL polled for a task. */
  function TaskUrl(taskId: string): (r: string)
    ensures |r| == |TaskUrlPrefix| + |taskId| && r[|TaskUrlPrefix|..] == taskId
  {
    TaskUrlPrefix + taskId
  }

  // ------------------------------------------------------------------ the poll

  /** `data.get("output", {})`: fails on a body that is not a dict. */
  function Output(data: Value): (r: Result<Value, Error>)
    ensures data.Obj? <==> r.Ok?
    ensures r.Ok? ==> r.value == Get(data.fields, "output", EmptyObj)
  {
    if data.Obj? then Ok(Get(data.fields, "output", EmptyObj)) else Err(Fault(AttributeError))
  }

  /** `.get("task_status", "UNKNOWN")` on the output: fails when it is not a dict. */
  function TaskStatus(data: Value): (r: Result<Value, Error>)
    ensures r.Ok? <==> data.Obj? && Get(data.fields, "output", EmptyObj).Obj?
    ensures r.Ok? ==> r.value == Get(Get(data.fields, "output", EmptyObj).fields, "task_status", Str(UnknownStatus))
  {
    var output :- Output(data);
    if output.Obj? then Ok(Get(output.fields, "task_status", Str(UnknownStatus))) else Err(Fault(AttributeError))
  }

  /** What one status answer tells the loop: the task is done, or keep polling. */
  datatype Decision = Done(output: Value) | KeepPolling

  /** One round of `check_task_status`. `SUCCEEDED` ends the loop with the
      body's `output`; `FAILED` raises a RuntimeError whose message is the
      failure prefix followed by the output's `error` (default "未知错误");
      every other status, and a missing one (read as "UNKNOWN"), keeps polling.
      A failed request is raised as it is. */
  function Step(answer: Result<Value, Error>): (r: Result<Decision, Error>)
    ensures answer.Err? ==> r == Err(answer.error)
    ensures r.Ok? && r.value.Done? <==> StatusOf(answer) == Some(Str("SUCCEEDED"))
    ensures r.Ok? && r.value.Done? ==> r.value.output == answer.value.fields["output"]
    ensures StatusOf(answer) == Some(Str("FAILED")) ==>
              r == Err(RuntimeError(Get(answer.value.fields["output"].fields, "error", Str(UnknownError))))
    ensures r == Ok(KeepPolling) <==>
              StatusOf(answer).Some? && StatusOf(answer) != Some(Str("SUCCEEDED"))
              && StatusOf(answer) != Some(Str("FAILED"))
  {
    var data :- answer;
    var status :- TaskStatus(data);
    if status == Str("SUCCEEDED") then Ok(Done(data.fields["output"]))
    else if status == Str("FAILED") then
      Err(RuntimeError(Get(data.fields["output"].fields, "error", Str(UnknownError))))
    else Ok(KeepPolling)
  }

  /** The status read from an answer, when it can be read at all. */
  function StatusOf(answer: Result<Value, Error>): (r: Option<Value>)
    ensures r.Some? <==> answer.Ok? && TaskStatus(answer.value).Ok?
    ensures r.Some? ==> r.value == TaskStatus(answer.value).value
  {
    if answer.Ok? && TaskStatus(answer.value).Ok? then Some(TaskStatus(answer.value).value) else None
  }

  /** A body without an `output`, or whose output has no `task_status`, keeps
      the loop going. */
  lemma {:induction false} MissingStatusKeepsPolling(fields: map<string, Value>)
    requires "output" !in fields || (fields["output"].Obj? && "task_status" !in fields["output"].fields)
    ensures Step(Ok(Obj(fields))) == Ok(KeepPolling)
  {
    assert TaskStatus(Obj(fields)) == Ok(Str(UnknownStatus));
    assert UnknownStatus[0] != "SUCCEEDED"[0] && UnknownStatus[0] != "FAILED"[0];
  }

  /** Every answer before position `k` told the loop to keep polling. */
  predicate PendingBefore(answers: seq<Result<Value, Error>>, k: nat)
    requires k <= |answers|
  {
    forall j :: 0 <= j < k ==> Step(answers[j]) == Ok(KeepPolling)
  }

  /** How the poll ends on a finite script: the output of the first decisive
      answer, or `None` when every answer said to keep polling. */
  datatype Polled = Polled(output: Option<Value>, polls: nat)

  /** `check_task_status` over the scripted answers: it stops at the first
      answer that is not a keep-polling one, returning its output or raising
      its error, and polls nothing after it. */
  method CheckTaskStatus(answers: seq<Result<Value, Error>>) returns (r: Result<Polled, Error>)
    ensures r.Ok? && r.value.output.Some? ==>
              1 <= r.value.polls <= |answers| && PendingBefore(answers, r.value.polls - 1)
              && Step(answers[r.value.polls - 1]) == Ok(Done(r.value.output.value))
    ensures r.Ok? && r.value.output.None? ==> r.value.polls == |answers| && PendingBefore(answers, |answers|)
    ensures r.Err? ==> exists k :: 0 <= k < |answers| && PendingBefore(answers, k) && Step(answers[k]) == Err(r.error)
    ensures forall k :: 0 <= k < |answers| && PendingBefore(answers, k) && Step(answers[k]).Ok?
                        && Step(answers[k]).value.Done? ==>
              r == Ok(Polled(Some(Step(answers[k]).value.output), k + 1))
  {
    var i := 0;
    while i < |answers|
      invariant 0 <= i <= |answers|
      invariant PendingBefore(answers, i)
    {
      var step := Step(answers[i]);
      match step {
        case Err(e) =>
          return Err(e);
        case Ok(Done(output)) =>
          return Ok(Polled(Some(output), i + 1));
        case Ok(KeepPolling) =>
      }
      i := i + 1;
    }
    return Ok(Polled(None, |answers|));
  }

  /** A body whose output reports `status`, which is neither terminal status. */
  lemma {:induction false} OtherStatusKeepsPolling(status: string)
    requires status != "SUCCEEDED" && status != "FAILED"
    ensures Step(Ok(Obj(map["output" := Obj(map["task_status" := Str(status)])]))) == Ok(KeepPolling)
  {
  }

  /** A task that reports PENDING, then RUNNING, then SUCCEEDED is polled three
      times and yields the final output. */
  method PendingThenSucceeded(output: map<string, Value>) returns (r: Result<Polled, Error>)
    ensures r == Ok(Polled(Some(Obj(output["task_status" := Str("SUCCEEDED")])), 3))
  {
    var pending := Ok(Obj(map["output" := Obj(map["task_status" := Str("PENDING")])]));
    var running := Ok(Obj(map["output" := Obj(map["task_status" := Str("RUNNING")])]));
    var done := Obj(output["task_status" := Str("SUCCEEDED")]);
    var finished := Ok(Obj(map["output" := done]));
    assert "PENDING"[0] != "SUCCEEDED"[0] && "PENDING"[0] != "FAILED"[0];
    assert "RUNNING"[0] != "SUCCEEDED"[0] && "RUNNING"[0] != "FAILED"[0];
    OtherStatusKeepsPolling("PENDING");
    OtherStatusKeepsPolling("RUNNING");
    assert Step(finished) == Ok(Done(done));
    var script := [pending, running, finished];
    assert PendingBefore(script, 2);
    r := CheckTaskStatus(script);
  }
}
