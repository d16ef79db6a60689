/**
 HTTP APIs described as tool schemas: the validators run when a schema is
 built (one of `anyOf`/`type`, a plain function name, an http(s) URL), the
 projections that turn the parameters into a JSON-schema dict, and the
 manager that registers an API from explicit arguments or from an OpenAPI
 document.

 Pydantic's validation errors are reported as `ValueError`.
 */
module ApiTool {
  import opened Wrappers
  import opened Text
  import opened OrderedDict
  import opened JsonValue
  import opened JimengErrors

  // ---------------------------------------------------------------- ArgProperty

  /** A parameter: its JSON schema and whether it is required (default True). */
  datatype ArgProperty = ArgProperty(schema: map<string, Value>, required: bool)

  const NeitherMessage: string := "Either \"anyOf\" or \"type\" must be provided."
  const BothMessage: string := "Only one of \"anyOf\" or \"type\" can be provided, not both."

  /** `check_any_of_or_type`: a schema is accepted, unchanged, exactly when one
      of the keys `anyOf` and `type` is present; the two rejections carry
      different messages. */
  function CheckAnyOfOrType(v: map<string, Value>): (r: Result<map<string, Value>, Error>)
    ensures r.Ok? <==> (("anyOf" in v) != ("type" in v))
    ensures r.Ok? ==> r.value == v
    ensures "anyOf" !in v && "type" !in v ==> r == Err(ValueError(NeitherMessage))
    ensures "anyOf" in v && "type" in v ==> r == Err(ValueError(BothMessage))
  {
    if "anyOf" !in v && "type" !in v then Err(ValueError(NeitherMessage))
    else if "anyOf" in v && "type" in v then Err(ValueError(BothMessage))
    else Ok(v)
  }

  /** Pydantic's lax reading of a bool field: booleans, the integers 0 and 1,
      and the usual spellings of yes and no in any case. */
  function AsBool(v: Value): (r: Option<bool>)
    ensures v.Bool? ==> r == Some(v.b)
    ensures v.Int? ==> (r.Some? <==> v.i == 0 || v.i == 1) && (r.Some? ==> r.value == (v.i == 1))
    ensures v.Str? ==> (r == Some(true) <==> AsciiLower(v.s) in {"1", "on", "t", "true", "y", "yes"})
    ensures v.Str? ==> (r == Some(false) <==> AsciiLower(v.s) in {"0", "off", "f", "false", "n", "no"})
    ensures v.Null? || v.Arr? || v.Obj? ==> r == None
  {
    match v
    case Bool(b) => Some(b)
    case Int(i) => if i == 0 then Some(false) else if i == 1 then Some(true) else None
    case Str(s) =>
      var l := AsciiLower(s);
      if l in {"1", "on", "t", "true", "y", "yes"} then Some(true)
      else if l in {"0", "off", "f", "false", "n", "no"} then Some(false)
      else None
    case _ => None
  }

  /** `ArgProperty.model_validate({"schema": ..., "required": ...})`: the schema
      must be a dict passing `check_any_of_or_type`, `required` a bool. */
  function MakeArgProperty(schema: Value, required: Value): (r: Result<ArgProperty, Error>)
    ensures r.Ok? <==> schema.Obj? && CheckAnyOfOrType(schema.fields).Ok? && AsBool(required).Some?
    ensures r.Ok? ==> r.value.schema == schema.fields && r.value.required == AsBool(required).value
  {
    if !schema.Obj? then Err(ValueError("schema: Input should be a valid dictionary"))
    else
      var checked :- CheckAnyOfOrType(schema.fields);
      match AsBool(required)
      case None => Err(ValueError("required: Input should be a valid boolean"))
      case Some(b) => Ok(ArgProperty(checked, b))
  }

  // ----------------------------------------------------------------- Parameters

  datatype Parameters = Parameters(kind: string, properties: Dict<ArgProperty>)

  function SchemaOf(a: ArgProperty): map<string, Value> {
    a.schema
  }

  /** `get_json_schema_properties`: the same names, in the same order, each
      mapped to its parameter's schema. */
  function JsonSchemaProperties(p: Parameters): (r: Dict<map<string, Value>>)
    ensures |r| == |p.properties|
    ensures forall i :: 0 <= i < |r| ==> r[i].0 == p.properties[i].0 && r[i].1 == p.properties[i].1.schema
  {
    MapValues(p.properties, SchemaOf)
  }

  /** Looked up by name, the projection has exactly the names of the
      parameters, and each one finds its parameter's schema. */
  lemma {:induction false} JsonSchemaLookup(p: Parameters, name: string)
    ensures KeySet(JsonSchemaProperties(p)) == KeySet(p.properties)
    ensures Lookup(JsonSchemaProperties(p), name) ==
            if name in KeySet(p.properties) then Some(Lookup(p.properties, name).value.schema) else None
  {
    MapValuesLookup(p.properties, SchemaOf, name);
  }

  // ------------------------------------------------------------------- Function

  /** `validate_name`: after removing every `_` the name must be non-empty and
      alphanumeric; it is returned unchanged. `alnum` is Python's per-character
      `str.isalnum`, which also accepts non-ASCII letters and digits. */
  function ValidateName(v: string, alnum: char -> bool): (r: Result<string, Error>)
    ensures r.Ok? <==> (exists i :: 0 <= i < |v| && v[i] != '_')
                       && (forall i :: 0 <= i < |v| && v[i] != '_' ==> alnum(v[i]))
    ensures r.Ok? ==> r.value == v
    ensures r.Err? ==> r.error.ValueError?
  {
    var stripped := ReplaceAll(v, "_", "");
    StrippedName(v, alnum);
    if |stripped| > 0 && (forall i :: 0 <= i < |stripped| ==> alnum(stripped[i])) then Ok(v)
    else Err(ValueError("name: Assertion failed"))
  }

  /** Removing the underscores leaves the other characters of the name: it is
      non-empty and alphanumeric exactly when the name has a character other
      than `_` and all of those are alphanumeric. */
  lemma {:induction false} StrippedName(v: string, alnum: char -> bool)
    ensures var stripped := ReplaceAll(v, "_", "");
      (|stripped| > 0 && (forall i :: 0 <= i < |stripped| ==> alnum(stripped[i]))) <==>
      ((exists i :: 0 <= i < |v| && v[i] != '_') && (forall i :: 0 <= i < |v| && v[i] != '_' ==> alnum(v[i])))
  {
    var stripped := ReplaceAll(v, "_", "");
    RemoveCharMembers(v, '_');
    assert "_" == ['_'];
    assert forall x :: x in stripped <==> x in v && x != '_';
    if |stripped| > 0 {
      assert stripped[0] in v;
      if !(forall i :: 0 <= i < |stripped| ==> alnum(stripped[i])) {
        var i :| 0 <= i < |stripped| && !alnum(stripped[i]);
        assert stripped[i] in v;
      }
    }
    if exists i :: 0 <= i < |v| && v[i] != '_' {
      var i :| 0 <= i < |v| && v[i] != '_';
      assert v[i] in stripped;
    }
    if !(forall i :: 0 <= i < |v| && v[i] != '_' ==> alnum(v[i])) {
      var i :| 0 <= i < |v| && v[i] != '_' && !alnum(v[i]);
      assert v[i] in stripped;
    }
  }

  /** A name made only of underscores is rejected, whatever counts as
      alphanumeric. */
  lemma {:induction false} UnderscoresRejected(v: string, alnum: char -> bool)
    requires forall i :: 0 <= i < |v| ==> v[i] == '_'
    ensures ValidateName(v, alnum).Err?
  {
  }

  datatype Function = Function(name: string, description: string, parameters: Parameters, output: string)

  /** The names whose `required` flag equals `flag`, in `properties` order. */
  function NamesWithRequired(props: Dict<ArgProperty>, flag: bool): (r: seq<string>)
    ensures forall k :: k in r <==> exists i :: 0 <= i < |props| && props[i].0 == k && props[i].1.required == flag
    ensures Subsequence(r, KeysOf(props))
  {
    if |props| == 0 then []
    else
      var rest := NamesWithRequired(props[1..], flag);
      assert forall i :: 1 <= i < |props| ==> props[i] == props[1..][i - 1];
      if props[0].1.required == flag then
        var r := [props[0].0] + rest;
        assert r[1..] == rest;
        r
      else
        rest
  }

  /** The keys of a dict, in order. */
  function KeysOf<V>(d: Dict<V>): (r: seq<string>)
    ensures |r| == |d| && forall i :: 0 <= i < |d| ==> r[i] == d[i].0
  {
    if |d| == 0 then [] else [d[0].0] + KeysOf(d[1..])
  }

  /** `a` is `b` with some elements left out, the rest in their order. */
  predicate Subsequence(a: seq<string>, b: seq<string>)
    decreases |b|
  {
    |a| == 0 || (|b| > 0 && ((a[0] == b[0] && Subsequence(a[1..], b[1..])) || Subsequence(a, b[1..])))
  }

  /** The required list of `create_parameter_model` as written: the names whose
      `required` flag is False. */
  function RequiredListAsWritten(props: Dict<ArgProperty>): seq<string> {
    NamesWithRequired(props, false)
  }

  /** The required list as JSON Schema means it: the names that are required. */
  function RequiredList(props: Dict<ArgProperty>): seq<string> {
    NamesWithRequired(props, true)
  }

  /** As written the list is the complement of the required parameters: every
      name of a dict lands in exactly one of the two lists. */
  lemma {:induction false} RequiredListInverted(props: Dict<ArgProperty>)
    requires DistinctKeys(props)
    ensures forall k :: k in KeySet(props) ==>
              (k in RequiredListAsWritten(props) <==> k !in RequiredList(props))
    ensures forall k :: k in RequiredList(props) <==>
              k in KeySet(props) && Lookup(props, k).value.required
  {
    forall k | k in KeySet(props)
      ensures k in RequiredListAsWritten(props) <==> k !in RequiredList(props)
      ensures k in RequiredList(props) <==> Lookup(props, k).value.required
    {
      var i := KeyPosition(props, k);
      if k in RequiredListAsWritten(props) {
        var j :| 0 <= j < |props| && props[j].0 == k && !props[j].1.required;
      }
      if k in RequiredList(props) {
        var j :| 0 <= j < |props| && props[j].0 == k && props[j].1.required;
      }
    }
    forall k | k in RequiredList(props) ensures k in KeySet(props) {
      var j :| 0 <= j < |props| && props[j].0 == k && props[j].1.required;
      KeyAt(props, j);
    }
  }

  /** A single required parameter `q`: as written the schema lists no required
      parameter, as intended it lists `q`. */
  lemma {:induction false} RequiredListCounterexample(schema: map<string, Value>)
    ensures RequiredListAsWritten([("q", ArgProperty(schema, true))]) == []
    ensures RequiredList([("q", ArgProperty(schema, true))]) == ["q"]
  {
    var props := [("q", ArgProperty(schema, true))];
    assert props[1..] == [];
  }

  /** The JSON-schema dict handed to the model factory. */
  datatype ParameterSchema = ParameterSchema(title: string, kind: string,
                                             properties: Dict<map<string, Value>>, required: seq<string>)

  /** `create_parameter_model` up to the factory call, as written. */
  function ParameterSchemaAsWritten(f: Function): (r: ParameterSchema)
    ensures r.title == f.name + "ArgsSchema" && r.kind == "object"
    ensures r.properties == JsonSchemaProperties(f.parameters)
    ensures r.required == RequiredListAsWritten(f.parameters.properties)
  {
    ParameterSchema(f.name + "ArgsSchema", "object", JsonSchemaProperties(f.parameters),
                    RequiredListAsWritten(f.parameters.properties))
  }

  /** `create_parameter_model` up to the factory call, with the required list
      repaired. */
  function ParameterSchemaFixed(f: Function): (r: ParameterSchema)
    ensures r.required == RequiredList(f.parameters.properties)
    ensures r == ParameterSchemaAsWritten(f).(required := RequiredList(f.parameters.properties))
  {
    ParameterSchema(f.name + "ArgsSchema", "object", JsonSchemaProperties(f.parameters),
                    RequiredList(f.parameters.properties))
  }

  // -------------------------------------------------------------------- HttpAPI

  /** `validate_url`: an absolute http or https URL, returned unchanged. */
  function ValidateUrl(v: string): (r: Result<string, Error>)
    ensures r.Ok? <==> StartsWith(v, "http://") || StartsWith(v, "https://")
    ensures r.Ok? ==> r.value == v
    ensures r.Err? ==> r.error == ValueError("Invalid URL")
  {
    if StartsWith(v, "http://") || StartsWith(v, "https://") then Ok(v) else Err(ValueError("Invalid URL"))
  }

  datatype HttpFunction = HttpFunction(kind: string, definition: Function)

  datatype HttpAPI = HttpAPI(url: string, verb: string, tool: HttpFunction)

  // --------------------------------------------------------------- the manager

  /** `load_schema`: builds the function (its name validated first) and the
      API (its URL validated), and appends the API to the manager's list. The
      method argument is not passed on: every API keeps the default "POST". */
  function LoadSchema(apis: seq<HttpAPI>, url: string, verb: string, name: string, description: string,
                      output: string, args: Dict<ArgProperty>, alnum: char -> bool): (r: Result<seq<HttpAPI>, Error>)
    ensures r.Ok? <==> ValidateName(name, alnum).Ok? && ValidateUrl(url).Ok?
    ensures r.Ok? ==> |r.value| == |apis| + 1 && r.value[..|apis|] == apis
    ensures r.Ok? ==> var api := r.value[|apis|];
                      api.url == url && api.verb == "POST" && api.tool.kind == "function"
                      && api.tool.definition == Function(name, description, Parameters("object", args), output)
  {
    var checkedName :- ValidateName(name, alnum);
    var f := HttpFunction("function", Function(checkedName, description, Parameters("object", args), output));
    var checkedUrl :- ValidateUrl(url);
    var api := HttpAPI(checkedUrl, "POST", f);
    assert (apis + [api])[..|apis|] == apis;
    Ok(apis + [api])
  }

  /** Loading never disturbs the APIs already registered, and loads one API
      per successful call. */
  lemma {:induction false} LoadSchemaTwice(apis: seq<HttpAPI>, u1: string, u2: string, v: string, name: string, d: string,
                        o: string, args: Dict<ArgProperty>, alnum: char -> bool)
    requires LoadSchema(apis, u1, v, name, d, o, args, alnum).Ok?
    requires LoadSchema(LoadSchema(apis, u1, v, name, d, o, args, alnum).value, u2, v, name, d, o, args, alnum).Ok?
    ensures var twice := LoadSchema(LoadSchema(apis, u1, v, name, d, o, args, alnum).value, u2, v, name, d, o, args, alnum).value;
      |twice| == |apis| + 2 && twice[..|apis|] == apis && twice[|apis|].url == u1 && twice[|apis| + 1].url == u2
  {
    var once := LoadSchema(apis, u1, v, name, d, o, args, alnum).value;
    var twice := LoadSchema(once, u2, v, name, d, o, args, alnum).value;
    assert twice[..|once|] == once;
    assert twice[..|apis|] == once[..|apis|];
  }

  /** A value Python cannot use as a dict key: a list or a dict. */
  predicate Unhashable(v: Value) {
    v.Arr? || v.Obj?
  }

  /** `param.get("name")` of an entry of `parameters`. */
  function EntryName(p: Value): Value
    requires p.Obj?
  {
    Get(p.fields, "name", Null)
  }

  /** The `ArgProperty` validated from an entry's `schema` and `required` (default True). */
  function EntryArg(p: Value): Result<ArgProperty, Error>
    requires p.Obj?
  {
    MakeArgProperty(Get(p.fields, "schema", Null), Get(p.fields, "required", Bool(true)))
  }

  /** An entry the loop gets through: a dict whose parameter validates and
      whose name can be a dict key. */
  predicate EntryOk(p: Value) {
    p.Obj? && EntryArg(p).Ok? && !Unhashable(EntryName(p))
  }

  /** What the loop raises on an entry it cannot get through, in the order of
      the statements: `.get` on a non-dict, the validation of the parameter,
      then the assignment under an unhashable name. */
  function EntryError(p: Value): Error
    requires !EntryOk(p)
  {
    if !p.Obj? then Fault(AttributeError)
    else if EntryArg(p).Err? then EntryArg(p).error
    else Fault(TypeError)
  }

  /** Entry `p` names the string `k`. */
  predicate NameIs(p: Value, k: string) {
    p.Obj? && EntryName(p) == Str(k)
  }

  /** Entry `i` is the last one named `k`. */
  predicate LastNamed(params: seq<Value>, i: nat, k: string)
    requires i < |params|
  {
    NameIs(params[i], k) && forall j :: i < j < |params| ==> !NameIs(params[j], k)
  }

  /** No entry is named `k`. */
  predicate NamedNowhere(params: seq<Value>, k: string) {
    forall j :: 0 <= j < |params| ==> !NameIs(params[j], k)
  }

  /** The loop over the operation's `parameters`: each entry becomes an
      `ArgProperty` stored under its name, a later entry replacing an earlier
      one of the same name. The first entry the loop cannot get through ends
      it with its error. Names that are hashable but not strings are only
      flagged: they make the final dict invalid. */
  function CollectParams(params: seq<Value>, acc: Dict<ArgProperty>, badName: bool): (r: Result<(Dict<ArgProperty>, bool), Error>)
    requires DistinctKeys(acc)
    ensures r.Ok? ==> DistinctKeys(r.value.0)
    ensures r.Ok? ==> KeySet(acc) <= KeySet(r.value.0)
    ensures r.Ok? && !r.value.1 ==> !badName
    decreases |params|
  {
    if |params| == 0 then Ok((acc, badName))
    else
      var param := params[0];
      if !EntryOk(param) then Err(EntryError(param))
      else
        var name := EntryName(param);
        var arg := EntryArg(param).value;
        if name.Str? then CollectParams(params[1..], Put(acc, name.s, arg), badName)
        else CollectParams(params[1..], acc, true)
  }

  /** One step of the loop: the collection after the first entry. */
  function CollectStep(p: Value, acc: Dict<ArgProperty>, badName: bool): (Dict<ArgProperty>, bool)
    requires EntryOk(p)
  {
    var name := EntryName(p);
    if name.Str? then (Put(acc, name.s, EntryArg(p).value), badName) else (acc, true)
  }

  lemma {:induction false} CollectUnfold(params: seq<Value>, acc: Dict<ArgProperty>, badName: bool)
    requires DistinctKeys(acc) && |params| > 0 && EntryOk(params[0])
    ensures DistinctKeys(CollectStep(params[0], acc, badName).0)
    ensures var s := CollectStep(params[0], acc, badName);
      CollectParams(params, acc, badName) == CollectParams(params[1..], s.0, s.1)
  {
  }

  /** The loop succeeds exactly when it gets through every entry. */
  lemma {:induction false} CollectParamsSucceeds(params: seq<Value>, acc: Dict<ArgProperty>, badName: bool)
    requires DistinctKeys(acc)
    ensures CollectParams(params, acc, badName).Ok? <==> forall i :: 0 <= i < |params| ==> EntryOk(params[i])
    decreases |params|
  {
    if |params| > 0 {
      assert forall i :: 1 <= i < |params| ==> params[i] == params[1..][i - 1];
      if EntryOk(params[0]) {
        CollectUnfold(params, acc, badName);
        var s := CollectStep(params[0], acc, badName);
        CollectParamsSucceeds(params[1..], s.0, s.1);
      }
    }
  }

  /** A failed loop reports the error of the first entry it cannot get through. */
  lemma {:induction false} CollectParamsFirstError(params: seq<Value>, acc: Dict<ArgProperty>, badName: bool)
    requires DistinctKeys(acc)
    ensures var r := CollectParams(params, acc, badName);
      r.Err? ==> exists i :: 0 <= i < |params| && !EntryOk(params[i]) && r.error == EntryError(params[i])
                             && forall j :: 0 <= j < i ==> EntryOk(params[j])
    decreases |params|
  {
    var r := CollectParams(params, acc, badName);
    if |params| > 0 && r.Err? {
      if EntryOk(params[0]) {
        CollectUnfold(params, acc, badName);
        var s := CollectStep(params[0], acc, badName);
        var tail := params[1..];
        CollectParamsFirstError(tail, s.0, s.1);
        var i :| 0 <= i < |tail| && !EntryOk(tail[i]) && r.error == EntryError(tail[i])
                 && forall j :: 0 <= j < i ==> EntryOk(tail[j]);
        assert params[i + 1] == tail[i];
        assert forall j :: 1 <= j < i + 1 ==> params[j] == tail[j - 1];
      } else {
        assert !EntryOk(params[0]) && r.error == EntryError(params[0]);
      }
    }
  }

  /** The result is flagged exactly when the caller's flag was set or some
      entry's name is not a string. */
  lemma {:induction false} CollectParamsFlag(params: seq<Value>, acc: Dict<ArgProperty>, badName: bool)
    requires DistinctKeys(acc)
    ensures var r := CollectParams(params, acc, badName);
      r.Ok? ==> (r.value.1 <==> badName || exists i :: 0 <= i < |params| && params[i].Obj? && !EntryName(params[i]).Str?)
    decreases |params|
  {
    var r := CollectParams(params, acc, badName);
    if |params| > 0 && r.Ok? {
      assert EntryOk(params[0]);
      CollectUnfold(params, acc, badName);
      var s := CollectStep(params[0], acc, badName);
      var tail := params[1..];
      CollectParamsFlag(tail, s.0, s.1);
      assert forall j :: 1 <= j < |params| ==> params[j] == tail[j - 1];
      if exists i :: 0 <= i < |tail| && tail[i].Obj? && !EntryName(tail[i]).Str? {
        var i :| 0 <= i < |tail| && tail[i].Obj? && !EntryName(tail[i]).Str?;
        assert params[i + 1] == tail[i];
      }
    }
  }

  /** What a successful collection holds: every name takes the parameter of
      the last entry carrying it, and a name no entry carries keeps what it
      had before the loop. */
  lemma {:induction false} CollectParamsLookup(params: seq<Value>, acc: Dict<ArgProperty>, badName: bool)
    requires DistinctKeys(acc)
    ensures var r := CollectParams(params, acc, badName);
      r.Ok? ==>
        (forall i, k :: 0 <= i < |params| && LastNamed(params, i, k) ==>
           EntryArg(params[i]).Ok? && Lookup(r.value.0, k) == Some(EntryArg(params[i]).value))
        && (forall k :: NamedNowhere(params, k) ==> Lookup(r.value.0, k) == Lookup(acc, k))
    decreases |params|
  {
    var r := CollectParams(params, acc, badName);
    if |params| > 0 && r.Ok? {
      var p := params[0];
      assert EntryOk(p);
      CollectUnfold(params, acc, badName);
      var s := CollectStep(p, acc, badName);
      var tail := params[1..];
      CollectParamsLookup(tail, s.0, s.1);
      CollectParamsSucceeds(params, acc, badName);
      forall i, k | 0 <= i < |params| && LastNamed(params, i, k)
        ensures EntryArg(params[i]).Ok? && Lookup(r.value.0, k) == Some(EntryArg(params[i]).value)
      {
        if i == 0 {
          assert NamedNowhere(tail, k) by {
            forall j | 0 <= j < |tail| ensures !NameIs(tail[j], k) {
              assert tail[j] == params[j + 1];
            }
          }
        } else {
          assert LastNamed(tail, i - 1, k) by {
            assert tail[i - 1] == params[i];
            forall j | i - 1 < j < |tail| ensures !NameIs(tail[j], k) {
              assert tail[j] == params[j + 1];
            }
          }
        }
      }
      forall k | NamedNowhere(params, k)
        ensures Lookup(r.value.0, k) == Lookup(acc, k)
      {
        assert NamedNowhere(tail, k) by {
          forall j | 0 <= j < |tail| ensures !NameIs(tail[j], k) {
            assert tail[j] == params[j + 1];
          }
        }
        assert !NameIs(p, k);
      }
    }
  }

  /** What iterating the `parameters` value yields, as far as the loop can
      tell: a list's elements; for a string or a dict, its characters or keys,
      which fail on `.get` as soon as there is one. */
  function ParamEntries(v: Value): (r: Result<seq<Value>, Error>)
    ensures v.Arr? ==> r == Ok(v.items)
    ensures v.Str? ==> (r.Ok? <==> |v.s| == 0) && (r.Err? ==> r.error == Fault(AttributeError))
    ensures v.Obj? ==> (r.Ok? <==> |v.fields| == 0) && (r.Err? ==> r.error == Fault(AttributeError))
    ensures v.Null? || v.Bool? || v.Int? ==> r == Err(Fault(TypeError))
    ensures r.Ok? && !v.Arr? ==> r.value == []
  {
    match v
    case Arr(xs) => Ok(xs)
    case Str(s) => if |s| == 0 then Ok([]) else Err(Fault(AttributeError))
    case Obj(m) => if |m| == 0 then Ok([]) else Err(Fault(AttributeError))
    case _ => Err(Fault(TypeError))
  }

  /** `load_openapi_json` on an already decoded document: the operation at
      `paths[apiPath][verb]` must exist and be non-empty; its parameters are
      collected, and the API is registered under `server + apiPath`. The
      response-schema text is given as `output`. */
  function LoadOpenApi(apis: seq<HttpAPI>, doc: Value, apiPath: string, server: string, verb: string,
                       output: string, alnum: char -> bool): (r: Result<seq<HttpAPI>, Error>)
    ensures r.Ok? ==> |r.value| == |apis| + 1 && r.value[..|apis|] == apis
    ensures r.Ok? ==> r.value[|apis|].url == server + apiPath && r.value[|apis|].verb == "POST"
  {
    var paths :- GetField(doc, "paths", Null);
    var byPath :- GetField(paths, apiPath, EmptyObj);
    var info :- GetField(byPath, verb, EmptyObj);
    if !Truthy(info) then Err(ValueError("Invalid url_path"))
    else if !info.Obj? then Err(Fault(AttributeError))
    else
      var name := Get(info.fields, "operationId", Null);
      var description := Get(info.fields, "description", Null);
      var entries :- ParamEntries(Get(info.fields, "parameters", Arr([])));
      var collected :- CollectParams(entries, [], false);
      if !name.Str? || !description.Str? || collected.1 then Err(ValueError("Function: validation error"))
      else LoadSchema(apis, server + apiPath, verb, name.s, description.s, output, collected.0, alnum)
  }

  /** A path the document does not describe under the given method is refused
      with "Invalid url_path" and registers nothing. */
  lemma {:induction false} UnknownPathRejected(apis: seq<HttpAPI>, paths: map<string, Value>, apiPath: string, server: string,
                            verb: string, output: string, alnum: char -> bool)
    requires apiPath !in paths
    ensures LoadOpenApi(apis, Obj(map["paths" := Obj(paths)]), apiPath, server, verb, output, alnum)
         == Err(ValueError("Invalid url_path"))
  {
    var doc := Obj(map["paths" := Obj(paths)]);
    assert Get(doc.fields, "paths", Null) == Obj(paths);
  }
}
