/**
 The error taxonomy of the image-generation client: one tagged exception type
 (`kind`, `code`, `message`) standing for the `JMException` subclasses, and
 the wider `Error` type through which every failing operation of the model
 reports, including the Python runtime errors the source lets escape.
 */
module JimengErrors {
  import opened Wrappers
  import opened Numerals
  import opened JsonValue

  datatype Kind =
    | RequestParamsInvalid
    | RequestFailed
    | TokenExpires
    | FileUrlInvalid
    | FileExceedsSize
    | ChatStreamPushing
    | ContentFiltered
    | ImageGenerationFailed
    | VideoGenerationFailed
    | InsufficientPoints

  const AllKinds: seq<Kind> := [
    RequestParamsInvalid, RequestFailed, TokenExpires, FileUrlInvalid, FileExceedsSize,
    ChatStreamPushing, ContentFiltered, ImageGenerationFailed, VideoGenerationFailed,
    InsufficientPoints
  ]

  /** The fixed code each subclass passes to the base constructor. */
  function Code(k: Kind): int {
    match k
    case RequestParamsInvalid => -2000
    case RequestFailed => -2001
    case TokenExpires => -2002
    case FileUrlInvalid => -2003
    case FileExceedsSize => -2004
    case ChatStreamPushing => -2005
    case ContentFiltered => -2006
    case ImageGenerationFailed => -2007
    case VideoGenerationFailed => -2008
    case InsufficientPoints => -2009
  }

  /** The fixed message each subclass passes to the base constructor. */
  function Message(k: Kind): string {
    match k
    case RequestParamsInvalid => "请求参数非法"
    case RequestFailed => "请求失败"
    case TokenExpires => "Token已失效"
    case FileUrlInvalid => "远程文件URL非法"
    case FileExceedsSize => "远程文件超出大小"
    case ChatStreamPushing => "已有对话流正在输出"
    case ContentFiltered => "内容由于合规问题已被阻止生成"
    case ImageGenerationFailed => "图像生成失败"
    case VideoGenerationFailed => "视频生成失败"
    case InsufficientPoints => "即梦积分不足"
  }

  /** The subclass name, which is also its key in the `EXCEPTIONS` table. */
  function ClassName(k: Kind): string {
    match k
    case RequestParamsInvalid => "API_REQUEST_PARAMS_INVALID"
    case RequestFailed => "API_REQUEST_FAILED"
    case TokenExpires => "API_TOKEN_EXPIRES"
    case FileUrlInvalid => "API_FILE_URL_INVALID"
    case FileExceedsSize => "API_FILE_EXECEEDS_SIZE"
    case ChatStreamPushing => "API_CHAT_STREAM_PUSHING"
    case ContentFiltered => "API_CONTENT_FILTERED"
    case ImageGenerationFailed => "API_IMAGE_GENERATION_FAILED"
    case VideoGenerationFailed => "API_VIDEO_GENERATION_FAILED"
    case InsufficientPoints => "API_IMAGE_GENERATION_INSUFFICIENT_POINTS"
  }

  /** The module-level `EXCEPTIONS` table, written out independently of the classes. */
  const ExceptionTable: map<string, (int, string)> := map[
    "API_REQUEST_PARAMS_INVALID" := (-2000, "请求参数非法"),
    "API_REQUEST_FAILED" := (-2001, "请求失败"),
    "API_TOKEN_EXPIRES" := (-2002, "Token已失效"),
    "API_FILE_URL_INVALID" := (-2003, "远程文件URL非法"),
    "API_FILE_EXECEEDS_SIZE" := (-2004, "远程文件超出大小"),
    "API_CHAT_STREAM_PUSHING" := (-2005, "已有对话流正在输出"),
    "API_CONTENT_FILTERED" := (-2006, "内容由于合规问题已被阻止生成"),
    "API_IMAGE_GENERATION_FAILED" := (-2007, "图像生成失败"),
    "API_VIDEO_GENERATION_FAILED" := (-2008, "视频生成失败"),
    "API_IMAGE_GENERATION_INSUFFICIENT_POINTS" := (-2009, "即梦积分不足")
  ]

  /** A raised `JMException` subclass instance. */
  datatype JMException = JMException(kind: Kind, code: int, message: string)

  /** Python errors raised by the interpreter itself that the client does not catch. */
  datatype PyFault =
    | TypeError      // wrong number of constructor arguments, indexing None, unhashable key
    | IndexError     // `[0]` of an empty list
    | AttributeError // `.get` on something that is not a dict
    | KeyError       // `[key]` of a missing key
    | OverflowError  // `float(n)` of an integer too large for a double
    | JsonDecodeError

  datatype Error =
    | Jm(exc: JMException)
    | ValueError(msg: string)     // ValueError and pydantic validation errors
    | RuntimeError(detail: Value) // a failed remote task, with its reported error
    | Fault(fault: PyFault)
    | Transport(reason: string)   // an exception from the HTTP library

  /** `v.get(key, default)`: only dicts have `get`; a dict answers the value
      stored under `key`, or `default` when the key is absent. */
  function GetField(v: Value, key: string, default: Value): (r: Result<Value, Error>)
    ensures r.Ok? <==> v.Obj?
    ensures r.Ok? && key in v.fields ==> r.value == v.fields[key]
    ensures r.Ok? && key !in v.fields ==> r.value == default
    ensures r.Err? ==> r.error == Fault(AttributeError)
  {
    if v.Obj? then Ok(Get(v.fields, key, default)) else Err(Fault(AttributeError))
  }

  /** Calling a subclass constructor with positional arguments `args`: it takes
      exactly one (`message`), which it ignores; any other number is a TypeError. */
  function Construct(k: Kind, args: seq<string>): (r: Result<JMException, PyFault>)
    ensures r.Ok? <==> |args| == 1
    ensures r.Ok? ==> r.value.kind == k && r.value.code == Code(k) && r.value.message == Message(k)
    ensures r.Err? ==> r.error == TypeError
  {
    if |args| == 1 then Ok(JMException(k, Code(k), Message(k))) else Err(TypeError)
  }

  /** `raise K(message)`: the error a correctly called constructor produces. */
  function Raise(k: Kind, message: string): (e: Error)
    ensures e.Jm? && e.exc.kind == k
  {
    Jm(Construct(k, [message]).value)
  }

  /** `str(e)`: the text the base constructor hands to `Exception`. */
  function Describe(e: JMException): string {
    "[" + Decimal(e.code) + "] " + e.message
  }

  /** The kind whose code is `code`, if any. */
  function KindOfCode(code: int): (r: Option<Kind>)
    ensures r.Some? ==> Code(r.value) == code
  {
    if -2009 <= code <= -2000 then Some(AllKinds[-2000 - code]) else None
  }

  /** Codes identify kinds: every kind's code decodes back to it, and the codes
      are exactly the ten values -2009..-2000. */
  lemma CodeRoundTrip(k: Kind)
    ensures KindOfCode(Code(k)) == Some(k)
    ensures -2009 <= Code(k) <= -2000
  {
  }

  /** The classes and the `EXCEPTIONS` table agree entry by entry, and the table
      has no other entries. */
  lemma TableMatchesClasses()
    ensures forall k :: ClassName(k) in ExceptionTable && ExceptionTable[ClassName(k)] == (Code(k), Message(k))
    ensures forall name :: name in ExceptionTable ==> KindNamed(name).Some?
  {
  }

  /** The subclass with the given name, if any. */
  function KindNamed(name: string): (r: Option<Kind>)
    ensures r.Some? ==> ClassName(r.value) == name
  {
    if name == "API_REQUEST_PARAMS_INVALID" then Some(RequestParamsInvalid)
    else if name == "API_REQUEST_FAILED" then Some(RequestFailed)
    else if name == "API_TOKEN_EXPIRES" then Some(TokenExpires)
    else if name == "API_FILE_URL_INVALID" then Some(FileUrlInvalid)
    else if name == "API_FILE_EXECEEDS_SIZE" then Some(FileExceedsSize)
    else if name == "API_CHAT_STREAM_PUSHING" then Some(ChatStreamPushing)
    else if name == "API_CONTENT_FILTERED" then Some(ContentFiltered)
    else if name == "API_IMAGE_GENERATION_FAILED" then Some(ImageGenerationFailed)
    else if name == "API_VIDEO_GENERATION_FAILED" then Some(VideoGenerationFailed)
    else if name == "API_IMAGE_GENERATION_INSUFFICIENT_POINTS" then Some(InsufficientPoints)
    else None
  }

  /** The message argument never reaches the exception. */
  lemma MessageIgnored(k: Kind, m1: string, m2: string)
    ensures Raise(k, m1) == Raise(k, m2)
    ensures Describe(Raise(k, m1).exc) == "[" + Decimal(Code(k)) + "] " + Message(k)
  {
  }
}
