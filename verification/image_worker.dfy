/**
 The image-to-image generation flow of the client: argument checks, the draft
 submitted to the generator, the wait for the history record while its status
 is 20 (queued or running), the classification of the finished record and the
 extraction of one image URL per returned item.

 Every remote call is replaced by the value it returned: the generate call's
 answer and a finite script of poll answers, each already passed through the
 response envelope (so an `Err` stands for an exception the call raised). The
 random ids are parameters, the one-second sleep is dropped.
 */
module ImageWorker {
  import opened Wrappers
  import opened JsonValue
  import opened JimengErrors

  const DraftVersion: string := "3.0.2"

  // ------------------------------------------------------------- arguments

  /** The arguments of `generate_images` that the modelled logic reads;
      `model` is the name the model lookup resolved it to. */
  datatype Request = Request(
    resolvedModel: string,
    prompt: Value,
    refreshToken: Value,
    imageUri: Value)

  /** The two argument checks: a prompt that is a non-empty string and a truthy
      refresh token; the prompt is checked first. */
  function Validate(req: Request): (r: Option<Error>)
    ensures r == None <==> req.prompt.Str? && req.prompt.s != "" && Truthy(req.refreshToken)
    ensures r.Some? ==> r.value.ValueError?
    ensures !(req.prompt.Str? && req.prompt.s != "") ==>
              r == Some(ValueError("prompt must be a non-empty string"))
  {
    if !Truthy(req.prompt) || !req.prompt.Str? then Some(ValueError("prompt must be a non-empty string"))
    else if !Truthy(req.refreshToken) then Some(ValueError("refresh_token is required"))
    else None
  }

  // ----------------------------------------------------------------- draft

  datatype Component = Component(id: string, minVersion: string, generateType: string, aigcMode: string)

  datatype Draft = Draft(id: string, minVersion: string, version: string, mainComponentId: string,
                         components: seq<Component>)

  /** What the generate call submits, reduced to the parts the modelled logic
      decides: the feature detail of the tracking parameter, the draft and the
      assistant id. */
  datatype Submission = Submission(featureEntranceDetail: string, submitId: string, draft: Draft, aid: int)

  /** `"blend"` when an uploaded image is given, `"generate"` otherwise. */
  function GenerateType(imageUri: Value): (r: string)
    ensures r == "blend" <==> Truthy(imageUri)
    ensures r == "blend" || r == "generate"
  {
    if Truthy(imageUri) then "blend" else "generate"
  }

  /** The submission for `req`, given the three fresh UUIDs (component, submit,
      draft). */
  function BuildSubmission(req: Request, componentId: string, submitId: string, draftId: string): (r: Submission)
    ensures |r.draft.components| == 1
    ensures r.draft.mainComponentId == r.draft.components[0].id == componentId
    ensures r.draft.components[0].generateType == "blend" <==> Truthy(req.imageUri)
    ensures r.draft.version == r.draft.minVersion == r.draft.components[0].minVersion == DraftVersion
    ensures r.featureEntranceDetail == "to_image-" + req.resolvedModel
    ensures r.aid == 513695
  {
    var component := Component(componentId, DraftVersion, GenerateType(req.imageUri), "workbench");
    Submission("to_image-" + req.resolvedModel, submitId,
               Draft(draftId, DraftVersion, DraftVersion, componentId, [component]), 513695)
  }

  /** The draft names a component of its own list as its main component. */
  predicate MainComponentListed(d: Draft) {
    exists i :: 0 <= i < |d.components| && d.components[i].id == d.mainComponentId
  }

  lemma {:induction false} SubmissionDraftConsistent(req: Request, componentId: string, submitId: string, draftId: string)
    ensures MainComponentListed(BuildSubmission(req, componentId, submitId, draftId).draft)
  {
    var d := BuildSubmission(req, componentId, submitId, draftId).draft;
    assert d.components[0].id == d.mainComponentId;
  }

  // ------------------------------------------------------------ history id

  /** `result.get("aigc_data", {}).get("history_record_id")`, rejected when falsy. */
  function HistoryId(result: Value): (r: Result<Value, Error>)
    ensures r.Ok? ==> Truthy(r.value)
    ensures r.Ok? <==> result.Obj? && Get(result.fields, "aigc_data", EmptyObj).Obj?
                       && Truthy(Get(Get(result.fields, "aigc_data", EmptyObj).fields, "history_record_id", Null))
    ensures r.Ok? ==> r.value == Get(result.fields["aigc_data"].fields, "history_record_id", Null)
  {
    if !result.Obj? then Err(Fault(AttributeError))
    else
      var aigc := Get(result.fields, "aigc_data", EmptyObj);
      if !aigc.Obj? then Err(Fault(AttributeError))
      else
        var hid := Get(aigc.fields, "history_record_id", Null);
        if !Truthy(hid) then Err(Raise(ImageGenerationFailed, "记录ID不存在")) else Ok(hid)
  }

  /** A missing record id fails the generation, whether `aigc_data` or the id
      inside it is absent. */
  lemma {:induction false} HistoryIdMissing(fields: map<string, Value>)
    requires "aigc_data" !in fields ||
             (fields["aigc_data"].Obj? && !Truthy(Get(fields["aigc_data"].fields, "history_record_id", Null)))
    ensures HistoryId(Obj(fields)) == Err(Raise(ImageGenerationFailed, "记录ID不存在"))
  {
  }

  // ----------------------------------------------------------------- polling

  /** The three fields read from a history record. */
  datatype Record = Record(status: Value, failCode: Value, itemList: Value)

  /** `d.get(key)` with a decoded JSON value as the key: only a string can match
      a JSON object's keys; other hashable keys find nothing, a list or dict
      key is unhashable. */
  function GetByValue(fields: map<string, Value>, key: Value): (r: Result<Value, Error>)
    ensures key.Str? ==> r == Ok(Get(fields, key.s, Null))
    ensures r.Err? <==> key.Arr? || key.Obj?
  {
    match key
    case Str(s) => Ok(Get(fields, s, Null))
    case Arr(_) => Err(Fault(TypeError))
    case Obj(_) => Err(Fault(TypeError))
    case _ => Ok(Null)
  }

  /** One poll answer read for `historyId`: the record must be present and
      truthy; its status, fail code and item list (default `[]`) are read. */
  function ReadRecord(answer: Result<Value, Error>, historyId: Value): (r: Result<Record, Error>)
    ensures answer.Err? ==> r == Err(answer.error)
    ensures r.Ok? ==> answer.Ok? && answer.value.Obj? && historyId.Str? && historyId.s in answer.value.fields
    ensures r.Ok? ==> var rec := answer.value.fields[historyId.s];
                      rec.Obj? && Truthy(rec)
                      && r.value == Record(Get(rec.fields, "status", Null), Get(rec.fields, "fail_code", Null),
                                           Get(rec.fields, "item_list", Arr([])))
    ensures answer.Ok? && answer.value.Obj? && historyId.Str?
            && !Truthy(Get(answer.value.fields, historyId.s, Null)) ==>
              r == Err(Raise(ImageGenerationFailed, "记录不存在"))
  {
    var result :- answer;
    if !result.Obj? then Err(Fault(AttributeError))
    else
      var rec :- GetByValue(result.fields, historyId);
      if !Truthy(rec) then Err(Raise(ImageGenerationFailed, "记录不存在"))
      else if !rec.Obj? then Err(Fault(AttributeError))
      else Ok(Record(Get(rec.fields, "status", Null), Get(rec.fields, "fail_code", Null),
                     Get(rec.fields, "item_list", Arr([]))))
  }

  /** The loop condition `status == 20`. */
  predicate Running(rec: Record) {
    EqualsInt(rec.status, 20)
  }

  /** How the wait ends: the first record whose status is not 20 (with the
      number of polls it took), or the script ran out while every record so
      far was still running. */
  datatype Wait = Finished(polls: nat, last: Record) | StillRunning

  /** The poll loop over the scripted answers `answers[start..]`. */
  function Poll(answers: seq<Result<Value, Error>>, historyId: Value, start: nat): (r: Result<Wait, Error>)
    requires start <= |answers|
    ensures r.Ok? && r.value.Finished? ==>
              start < r.value.polls <= |answers|
              && ReadRecord(answers[r.value.polls - 1], historyId) == Ok(r.value.last)
              && !Running(r.value.last)
    decreases |answers| - start
  {
    if start == |answers| then Ok(StillRunning)
    else
      var rec :- ReadRecord(answers[start], historyId);
      if Running(rec) then Poll(answers, historyId, start + 1)
      else Ok(Finished(start + 1, rec))
  }

  /** The record read from every answer before position `k` was still running. */
  predicate RunningBefore(answers: seq<Result<Value, Error>>, historyId: Value, start: nat, k: nat)
    requires start <= k <= |answers|
  {
    forall j :: start <= j < k ==> ReadRecord(answers[j], historyId).Ok? && Running(ReadRecord(answers[j], historyId).value)
  }

  /** The loop stops at the first answer that fails or whose record is no longer
      running, and only there: a finished wait saw status 20 on every earlier
      poll, a wait that ran out saw it on all of them, and an error comes from
      the first answer that could not be read. */
  lemma {:induction false} PollFirstStop(answers: seq<Result<Value, Error>>, historyId: Value, start: nat)
    requires start <= |answers|
    ensures var r := Poll(answers, historyId, start);
      && (r.Ok? && r.value.Finished? ==> RunningBefore(answers, historyId, start, r.value.polls - 1))
      && (r.Ok? && r.value.StillRunning? ==> RunningBefore(answers, historyId, start, |answers|))
      && (r.Err? ==> exists k :: start <= k < |answers| && RunningBefore(answers, historyId, start, k)
                                 && ReadRecord(answers[k], historyId) == Err(r.error))
    decreases |answers| - start
  {
    if start < |answers| {
      var rd := ReadRecord(answers[start], historyId);
      if rd.Ok? && Running(rd.value) {
        PollFirstStop(answers, historyId, start + 1);
        var r := Poll(answers, historyId, start);
        if r.Err? {
          var k :| start + 1 <= k < |answers| && RunningBefore(answers, historyId, start + 1, k)
                   && ReadRecord(answers[k], historyId) == Err(r.error);
          assert RunningBefore(answers, historyId, start, k);
        }
      } else if rd.Err? {
        assert RunningBefore(answers, historyId, start, start);
      }
    }
  }

  // ---------------------------------------------------------- URL extraction

  /** `x[0]` on a decoded value. */
  function First(v: Value): (r: Result<Value, Error>)
    ensures v.Arr? && |v.items| > 0 ==> r == Ok(v.items[0])
    ensures v.Arr? && |v.items| == 0 ==> r == Err(Fault(IndexError))
  {
    match v
    case Arr(xs) => if |xs| > 0 then Ok(xs[0]) else Err(Fault(IndexError))
    case Str(s) => if |s| > 0 then Ok(Str([s[0]])) else Err(Fault(IndexError))
    case Obj(_) => Err(Fault(KeyError))
    case _ => Err(Fault(TypeError))
  }

  /** The URL of one truthy item, as written: the first large image's
      `image_url` when truthy, otherwise `common_attr.cover_url` (possibly
      None). `large_images` defaults to `[{}]` when absent; an empty list
      fails the `[0]`. */
  function ItemUrl(item: Value): (r: Result<Value, Error>)
    ensures !item.Obj? ==> r == Err(Fault(AttributeError))
    ensures item.Obj? && !Get(item.fields, "image", EmptyObj).Obj? ==> r == Err(Fault(AttributeError))
    ensures r.Ok? && !Truthy(r.value) ==>
              item.Obj? && r == GetField(Get(item.fields, "common_attr", EmptyObj), "cover_url", Null)
  {
    if !item.Obj? then Err(Fault(AttributeError))
    else
      var image := Get(item.fields, "image", EmptyObj);
      var large :- GetField(image, "large_images", Arr([EmptyObj]));
      var first :- First(large);
      var url :- GetField(first, "image_url", Null);
      if Truthy(url) then Ok(url)
      else GetField(Get(item.fields, "common_attr", EmptyObj), "cover_url", Null)
  }

  /** The URL of one truthy item as evidently intended: an empty `large_images`
      list counts as having no image URL and falls back to the cover. */
  function ItemUrlFixed(item: Value): (r: Result<Value, Error>)
  {
    if !item.Obj? then Err(Fault(AttributeError))
    else
      var image := Get(item.fields, "image", EmptyObj);
      var large :- GetField(image, "large_images", Arr([EmptyObj]));
      var first :- if large == Arr([]) then Ok(EmptyObj) else First(large);
      var url :- GetField(first, "image_url", Null);
      if Truthy(url) then Ok(url)
      else GetField(Get(item.fields, "common_attr", EmptyObj), "cover_url", Null)
  }

  /** The items the comprehension keeps, in order. */
  function TruthyItems(xs: seq<Value>): (r: seq<Value>)
    ensures |r| <= |xs|
    ensures forall v :: v in r ==> v in xs && Truthy(v)
    ensures forall v :: v in xs && Truthy(v) ==> v in r
  {
    if |xs| == 0 then []
    else if Truthy(xs[0]) then [xs[0]] + TruthyItems(xs[1..])
    else TruthyItems(xs[1..])
  }

  /** The filter keeps a single item exactly when it is truthy. */
  lemma {:induction false} TruthyItemsSingle(v: Value)
    ensures TruthyItems([v]) == if Truthy(v) then [v] else []
  {
    assert [v][1..] == [];
  }

  /** The filter distributes over concatenation; with `TruthyItemsSingle` this
      fixes the kept items and their order. */
  lemma {:induction false} TruthyItemsConcat(a: seq<Value>, b: seq<Value>)
    ensures TruthyItems(a + b) == TruthyItems(a) + TruthyItems(b)
    decreases |a|
  {
    if |a| > 0 {
      assert (a + b)[0] == a[0];
      assert (a + b)[1..] == a[1..] + b;
      TruthyItemsConcat(a[1..], b);
    } else {
      assert a + b == b;
    }
  }

  /** The per-item rule applied to each of `ys` in turn; the first item that
      raises ends it with its error. */
  function MapUrls(ys: seq<Value>, url: Value -> Result<Value, Error>): (r: Result<seq<Value>, Error>)
    ensures r.Ok? <==> forall i :: 0 <= i < |ys| ==> url(ys[i]).Ok?
    ensures r.Ok? ==> |r.value| == |ys| && forall i :: 0 <= i < |ys| ==> url(ys[i]) == Ok(r.value[i])
    ensures r.Err? ==> exists i :: 0 <= i < |ys| && url(ys[i]) == Err(r.error)
                                   && forall j :: 0 <= j < i ==> url(ys[j]).Ok?
    decreases |ys|
  {
    if |ys| == 0 then Ok([])
    else
      var rest := MapUrls(ys[1..], url);
      assert forall i :: 1 <= i < |ys| ==> ys[i] == ys[1..][i - 1];
      if url(ys[0]).Err? then Err(url(ys[0]).error)
      else if rest.Err? then
        assert exists i :: 0 <= i < |ys| && url(ys[i]) == Err(rest.error)
                           && forall j :: 0 <= j < i ==> url(ys[j]).Ok? by {
          var i :| 0 <= i < |ys[1..]| && url(ys[1..][i]) == Err(rest.error)
                   && forall j :: 0 <= j < i ==> url(ys[1..][j]).Ok?;
          assert url(ys[i + 1]) == Err(rest.error);
        }
        Err(rest.error)
      else
        var r := [url(ys[0]).value] + rest.value;
        assert forall i :: 1 <= i < |ys| ==> r[i] == rest.value[i - 1];
        Ok(r)
  }

  /** `[url(item) for item in item_list if item]`: the rule runs on the truthy
      items in order, so the result is the rule mapped over the kept items and
      a failure is that of the first kept item that fails. */
  function ExtractWith(xs: seq<Value>, url: Value -> Result<Value, Error>): (r: Result<seq<Value>, Error>)
    ensures r.Ok? ==> |r.value| == |TruthyItems(xs)|
    ensures r.Ok? ==> forall i :: 0 <= i < |r.value| ==> url(TruthyItems(xs)[i]) == Ok(r.value[i])
    ensures r.Err? ==> exists i :: 0 <= i < |TruthyItems(xs)| && url(TruthyItems(xs)[i]) == Err(r.error)
                                   && forall j :: 0 <= j < i ==> url(TruthyItems(xs)[j]).Ok?
  {
    MapUrls(TruthyItems(xs), url)
  }

  /** The comprehension over whatever `item_list` holds: the elements of a
      list; the one-character strings of a string; the keys of a dict, which
      are strings, so the first non-empty one fails on `.get` (their order does
      not matter); anything else is not iterable. */
  function ExtractFrom(itemList: Value, url: Value -> Result<Value, Error>): (r: Result<seq<Value>, Error>)
    ensures itemList.Arr? ==> r == ExtractWith(itemList.items, url)
    ensures itemList.Null? || itemList.Bool? || itemList.Int? ==> r == Err(Fault(TypeError))
  {
    match itemList
    case Arr(xs) => ExtractWith(xs, url)
    case Str(s) => ExtractWith(seq(|s|, i requires 0 <= i < |s| => Str([s[i]])), url)
    case Obj(m) => if m.Keys - {""} == {} then Ok([]) else Err(Fault(AttributeError))
    case _ => Err(Fault(TypeError))
  }

  /** The result list of `generate_images`, as written. */
  function ExtractUrls(itemList: Value): (r: Result<seq<Value>, Error>)
    ensures itemList.Arr? && r.Ok? ==>
              |r.value| == |TruthyItems(itemList.items)|
              && forall i :: 0 <= i < |r.value| ==> ItemUrl(TruthyItems(itemList.items)[i]) == Ok(r.value[i])
    ensures itemList.Null? || itemList.Bool? || itemList.Int? ==> r == Err(Fault(TypeError))
  {
    ExtractFrom(itemList, ItemUrl)
  }

  /** The result list with the empty-`large_images` case repaired. */
  function ExtractUrlsFixed(itemList: Value): Result<seq<Value>, Error> {
    ExtractFrom(itemList, ItemUrlFixed)
  }

  /** The URL rule on every dict item, by the shape of its `image`: without
      `image`, or with an `image` lacking `large_images` (which defaults to
      `[{}]`), the cover URL is taken, None when there is none; with a
      non-empty list whose first element is a dict, that element's truthy
      `image_url` wins and the cover URL is the fallback; an empty list
      raises IndexError. */
  lemma {:induction false} ItemUrlCases(item: map<string, Value>, image: map<string, Value>, xs: seq<Value>)
    ensures "image" !in item ==> ItemUrl(Obj(item)) == GetField(Get(item, "common_attr", EmptyObj), "cover_url", Null)
    ensures Get(item, "image", EmptyObj) == Obj(image) && "large_images" !in image ==>
              ItemUrl(Obj(item)) == GetField(Get(item, "common_attr", EmptyObj), "cover_url", Null)
    ensures Get(item, "image", EmptyObj) == Obj(image) && Get(image, "large_images", Null) == Arr(xs)
            && |xs| > 0 && xs[0].Obj? ==>
              ItemUrl(Obj(item)) ==
                (if Truthy(Get(xs[0].fields, "image_url", Null)) then Ok(Get(xs[0].fields, "image_url", Null))
                 else GetField(Get(item, "common_attr", EmptyObj), "cover_url", Null))
    ensures Get(item, "image", EmptyObj) == Obj(image) && Get(image, "large_images", Null) == Arr([]) ==>
              ItemUrl(Obj(item)) == Err(Fault(IndexError))
  {
  }

  /** The repair changes nothing but the empty-list case: on every item whose
      `large_images` is not an empty list both rules agree. */
  lemma {:induction false} ItemUrlFixedAgrees(item: Value)
    requires item.Obj? ==> var image := Get(item.fields, "image", EmptyObj);
                           image.Obj? ==> Get(image.fields, "large_images", Arr([EmptyObj])) != Arr([])
    ensures ItemUrlFixed(item) == ItemUrl(item)
  {
  }

  /** As written, an item whose `large_images` is empty raises IndexError even
      when it has a cover URL; the repaired rule returns the cover URL. */
  lemma {:induction false} EmptyLargeImages(cover: string)
    ensures var item := Obj(map["image" := Obj(map["large_images" := Arr([])]),
                                "common_attr" := Obj(map["cover_url" := Str(cover)])]);
      && ItemUrl(item) == Err(Fault(IndexError))
      && ItemUrlFixed(item) == Ok(Str(cover))
  {
    var image := Obj(map["large_images" := Arr([])]);
    var item := Obj(map["image" := image, "common_attr" := Obj(map["cover_url" := Str(cover)])]);
    assert Get(item.fields, "image", EmptyObj) == image;
    assert Get(image.fields, "large_images", Arr([EmptyObj])) == Arr([]);
  }

  /** The repaired rule never raises IndexError: every item that is a dict
      whose `image` and first large image are dicts (or absent) yields a URL
      or None. */
  lemma {:induction false} ItemUrlFixedTotal(item: map<string, Value>)
    requires Get(item, "image", EmptyObj).Obj?
    requires var large := Get(Get(item, "image", EmptyObj).fields, "large_images", Arr([EmptyObj]));
             large.Arr? && (|large.items| == 0 || large.items[0].Obj?)
    requires Get(item, "common_attr", EmptyObj).Obj?
    ensures ItemUrlFixed(Obj(item)).Ok?
  {
  }

  // ---------------------------------------------------------- classification

  /** The end of `generate_images` once the wait finished, as written: status 30
      raises (content filtered for fail code "2038", generation failed
      otherwise) but calls each constructor with no argument, which the
      one-argument constructors reject with TypeError; any other status
      returns the URLs. */
  function Conclude(last: Record): (r: Result<seq<Value>, Error>)
    ensures EqualsInt(last.status, 30) ==> r == Err(Fault(TypeError))
  {
    if EqualsInt(last.status, 30) then
      var kind := if last.failCode == Str("2038") then ContentFiltered else ImageGenerationFailed;
      match Construct(kind, [])
      case Ok(e) => Err(Jm(e))
      case Err(f) => Err(Fault(f))
    else ExtractUrls(last.itemList)
  }

  /** The same decision as evidently intended: the two typed errors are raised,
      and an empty `large_images` falls back to the cover URL. */
  function ConcludeFixed(last: Record): (r: Result<seq<Value>, Error>)
    ensures EqualsInt(last.status, 30) && last.failCode == Str("2038") ==>
              r.Err? && r.error.Jm? && r.error.exc.kind == ContentFiltered && r.error.exc.code == -2006
    ensures EqualsInt(last.status, 30) && last.failCode != Str("2038") ==>
              r.Err? && r.error.Jm? && r.error.exc.kind == ImageGenerationFailed && r.error.exc.code == -2007
    ensures !EqualsInt(last.status, 30) ==> r == ExtractUrlsFixed(last.itemList)
  {
    if EqualsInt(last.status, 30) then
      if last.failCode == Str("2038") then Err(Raise(ContentFiltered, ""))
      else Err(Raise(ImageGenerationFailed, ""))
    else ExtractUrlsFixed(last.itemList)
  }

  /** As written, a failed generation (status 30) never surfaces as either
      typed error: whatever the fail code, the caller sees a TypeError. */
  lemma {:induction false} ConcludeStatusThirty(last: Record)
    requires EqualsInt(last.status, 30)
    ensures Conclude(last) == Err(Fault(TypeError))
    ensures ConcludeFixed(last).Err? && ConcludeFixed(last).error.Jm?
  {
  }

  /** Outside status 30 the two versions differ only by the URL rule. */
  lemma {:induction false} ConcludeOtherStatus(last: Record)
    requires !EqualsInt(last.status, 30)
    ensures Conclude(last) == ExtractUrls(last.itemList)
    ensures ConcludeFixed(last) == ExtractUrlsFixed(last.itemList)
  {
  }

  // ------------------------------------------------------------ whole flow

  /** What `generate_images` ends with: the URL list, or the script of poll
      answers ran out while the record was still running. */
  datatype Outcome = Urls(urls: seq<Value>) | StillWaiting

  /** `generate_images` over the generate call's answer and the poll script,
      with the classification `conclude` (as written or repaired). */
  function GenerateWith(req: Request, generated: Result<Value, Error>, answers: seq<Result<Value, Error>>,
                        conclude: Record -> Result<seq<Value>, Error>): (r: Result<Outcome, Error>)
    ensures Validate(req).Some? ==> r == Err(Validate(req).value)
    ensures Validate(req).None? && generated.Err? ==> r == Err(generated.error)
    ensures Validate(req).None? && generated.Ok? && HistoryId(generated.value).Err? ==>
              r == Err(HistoryId(generated.value).error)
    ensures r.Ok? && r.value.Urls? ==>
              generated.Ok? && HistoryId(generated.value).Ok?
              && var w := Poll(answers, HistoryId(generated.value).value, 0);
                 w.Ok? && w.value.Finished? && conclude(w.value.last) == Ok(r.value.urls)
    ensures Validate(req).None? && generated.Ok? && HistoryId(generated.value).Ok? ==>
              var w := Poll(answers, HistoryId(generated.value).value, 0);
              && (w.Err? ==> r == Err(w.error))
              && (w.Ok? && w.value.StillRunning? ==> r == Ok(StillWaiting))
              && (w.Ok? && w.value.Finished? && conclude(w.value.last).Err? ==> r == Err(conclude(w.value.last).error))
              && (w.Ok? && w.value.Finished? && conclude(w.value.last).Ok? ==> r == Ok(Urls(conclude(w.value.last).value)))
  {
    match Validate(req)
    case Some(e) => Err(e)
    case None =>
      var result :- generated;
      var historyId :- HistoryId(result);
      var wait :- Poll(answers, historyId, 0);
      match wait
      case StillRunning => Ok(StillWaiting)
      case Finished(_, last) =>
        var urls :- conclude(last);
        Ok(Urls(urls))
  }

  /** `generate_images` as written. */
  function GenerateImages(req: Request, generated: Result<Value, Error>,
                          answers: seq<Result<Value, Error>>): (r: Result<Outcome, Error>)
    ensures r.Ok? && r.value.Urls? ==>
              generated.Ok? && HistoryId(generated.value).Ok?
              && var w := Poll(answers, HistoryId(generated.value).value, 0);
                 w.Ok? && w.value.Finished? && !EqualsInt(w.value.last.status, 30)
    ensures Validate(req).None? && generated.Ok? && HistoryId(generated.value).Ok? ==>
              var w := Poll(answers, HistoryId(generated.value).value, 0);
              w.Ok? && w.value.Finished? && EqualsInt(w.value.last.status, 30) ==> r == Err(Fault(TypeError))
  {
    GenerateWith(req, generated, answers, Conclude)
  }

  /** `generate_images` with both defects repaired. */
  function GenerateImagesFixed(req: Request, generated: Result<Value, Error>,
                               answers: seq<Result<Value, Error>>): Result<Outcome, Error>
  {
    GenerateWith(req, generated, answers, ConcludeFixed)
  }

  /** A record with the given status and fail code and no items. */
  function StatusAnswer(historyId: string, status: int, failCode: Value): Result<Value, Error> {
    Ok(Obj(map[historyId := Obj(map["status" := Int(status), "fail_code" := failCode])]))
  }

  /** A generation that is filtered after one running poll: the repaired flow
      reports content filtered (-2006), the flow as written a TypeError. */
  lemma {:induction false} FilteredScenario(req: Request, hid: string)
    requires Validate(req).None? && hid != ""
    ensures var generated := Ok(Obj(map["aigc_data" := Obj(map["history_record_id" := Str(hid)])]));
      var answers := [StatusAnswer(hid, 20, Null), StatusAnswer(hid, 30, Str("2038"))];
      && GenerateImages(req, generated, answers) == Err(Fault(TypeError))
      && GenerateImagesFixed(req, generated, answers).Err?
      && GenerateImagesFixed(req, generated, answers).error == Raise(ContentFiltered, "")
  {
    var generated := Obj(map["aigc_data" := Obj(map["history_record_id" := Str(hid)])]);
    assert HistoryId(generated) == Ok(Str(hid));
    var failed := Record(Int(30), Str("2038"), Arr([]));
    FilteredPolls(hid);
    ConcludeStatusThirty(failed);
  }

  /** The two scripted polls: running, then finished with status 30. */
  lemma {:induction false} FilteredPolls(hid: string)
    ensures Poll([StatusAnswer(hid, 20, Null), StatusAnswer(hid, 30, Str("2038"))], Str(hid), 0)
         == Ok(Finished(2, Record(Int(30), Str("2038"), Arr([]))))
  {
    var answers := [StatusAnswer(hid, 20, Null), StatusAnswer(hid, 30, Str("2038"))];
    var running := Record(Int(20), Null, Arr([]));
    var failed := Record(Int(30), Str("2038"), Arr([]));
    assert ReadRecord(answers[0], Str(hid)) == Ok(running);
    assert ReadRecord(answers[1], Str(hid)) == Ok(failed);
    assert Poll(answers, Str(hid), 1) == Ok(Finished(2, failed));
  }
}
