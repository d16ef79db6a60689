# Jimeng image client and HTTP tool schemas, modelled in Dafny

This project models the core of a Python client for two image services, and the
tool-schema layer next to it:

- **the Jimeng web API client** (`pkg/client/spide/jimeng_core.py`), covering:
  - the typed exception table;
  - the token splitter;
  - the session cookie;
  - the `Sign` pre-image;
  - the default query parameters and headers a request carries, merged with
    the caller's own;
  - response decompression;
  - the `{ret, errmsg, data}` envelope.
- **the ImageX upload signer and helpers** (`pkg/client/spide/jimeng.py`), covering:
  - `u(params)`;
  - the AWS4-HMAC-SHA256 request builder: canonical request, credential scope,
    string to sign, signing-key chain and `Authorization` header;
  - the CRC32 checksum string;
  - `ImageInfo.build`;
  - the upload URL;
  - `random_str`.
- **the image-to-image worker** (`JMImageToImageWorker.generate_images`), covering:
  - argument validation;
  - the draft submission;
  - the history-id check;
  - the status-20 poll loop;
  - the status-30 classification;
  - URL extraction from the item list.
- **the DashScope image editor** (`pkg/client/llm/image.py`): the shared
  payload template and the SUCCEEDED / FAILED / keep-polling decision of the
  task poll.
- **HTTP API tool schemas** (`pkg/client/llm/api_tool.py`), covering:
  - the pydantic validators: `anyOf`/`type`, function name and URL;
  - the JSON-schema projection and the `required` list;
  - `HttpAPIManager.load_schema` and `load_openapi_json` on an already
    decoded OpenAPI document.

Modules:

| module | file | models |
|---|---|---|
| `Wrappers` | wrappers.dfy | `Option` and `Result` |
| `Text` | text.dfy | the `str` operations the client uses: `strip`, `split`, `join`, `replace`, slicing |
| `Numerals` | numerals.dfy | hex and decimal rendering and parsing |
| `StringOrder` | string_order.dfy | Python's code-point order on strings |
| `OrderedDict` | ordered_dict.dfy | an insertion-ordered `dict` with `d[k] = v`, `update` and `sorted(d.items())` |
| `JsonValue` | json_value.dfy | decoded JSON, with Python's truthiness and `.get` |
| `JimengErrors` | errors.dfy | the `JMException` family and the interpreter errors the code lets escape |
| `JimengCore` | jimeng_core.dfy | `jimeng_core.py` |
| `UploadSigner` | upload_signer.dfy | the signer, checksum, `ImageInfo` and `random_str` of `jimeng.py` |
| `ImageWorker` | image_worker.dfy | `generate_images` |
| `ImageEditor` | image_editor.dfy | `image.py` |
| `ApiTool` | api_tool.dfy | `api_tool.py` |

**Side effects as parameters.** Effects and foreign computations are
parameters of the functions that use them:

- SHA-256, HMAC, MD5, CRC32, UTF-8 encoding and decoding, gzip and Brotli
  decompression, `json.loads` and Python's `float()` parse;
- the clock (`device_time`, the `x-amz-date` timestamp);
- the random source (`uuid4` bytes, `random.sample` draws);
- HTTP: each request's answer is a given `Result` value. A poll loop runs over
  a finite script of such answers.

**Python errors.** Errors the code raises on purpose are modelled exactly.
Errors the interpreter raises are modelled too: `.get` on a non-dict, `[0]` of
an empty list, and a constructor called with the wrong arity. They are the
`Fault` case of `JimengErrors.Error`.

**Where the model follows the code.** In three places the code and its
documentation disagree, and the model follows the code:

- `request` compares `str(ret)` with `"0"` and `"5000"`, so the integers 0
  and 5000 count as well as the strings.
- An item from which no URL can be read contributes `None` to the result list
  of `generate_images`; it is not dropped.
- Both status-30 branches of the poll raise a `TypeError` instead of the typed
  errors. The repaired behaviour is modelled next to it; see Findings.

## Model

| member | source | states |
|---|---|---|
| JimengErrors.GetField | pkg/client/llm/api_tool.py:154-155 | `v.get(key, default)` succeeds exactly on a dict, answering the stored value or the default when the key is absent; on anything else it is an AttributeError. |
| JimengErrors.Construct | pkg/client/spide/jimeng_core.py:37-85 | A subclass constructor succeeds exactly when given one argument. The exception it builds carries the subclass's fixed code and message, whatever message was passed. Any other argument count is a TypeError. |
| JimengErrors.CodeRoundTrip | pkg/client/spide/jimeng_core.py:24-35 | Every kind's code lies in -2009..-2000, and the code maps back to that kind, so codes identify kinds. |
| JimengErrors.TableMatchesClasses | pkg/client/spide/jimeng_core.py:24-85 | The `EXCEPTIONS` table lists every subclass under its class name, with the same code and message as the class. Every table key names a class. |
| JimengErrors.MessageIgnored | pkg/client/spide/jimeng_core.py:16-21 | Raising a kind with any two messages gives the same exception, and its text is `[code] message` with the class's fixed message. |
| JsonValue.RendersAsZero | pkg/client/spide/jimeng_core.py:361 | `str(ret) == '0'` holds of exactly the string "0" and the integer 0. |
| JsonValue.RendersAsFiveThousand | pkg/client/spide/jimeng_core.py:364 | `str(ret) == '5000'` holds of exactly the string "5000" and the integer 5000. |
| JimengCore.DefaultTo | pkg/client/spide/jimeng_core.py:104-106 | A non-None value is returned unchanged. The result is None only when both arguments are None. |
| JimengCore.DefaultToIdempotent | pkg/client/spide/jimeng_core.py:104-106 | Applying a default twice equals applying it once, and defaulting to None is the identity. |
| JimengCore.TokenSplit | pkg/client/spide/jimeng_core.py:155-167 | An absent or empty header gives no tokens. Every token is non-empty, stripped and free of commas. |
| JimengCore.TokenSplitRoundTrip | pkg/client/spide/jimeng_core.py:155-167 | Splitting `"Bearer " + ",".join(ts)` gives back `ts`. This holds when each token is non-empty and stripped, with no comma and no "Bearer" inside. |
| JimengCore.TokenSplitBearerOnly | pkg/client/spide/jimeng_core.py:164-167 | A header that is only "Bearer " yields no tokens. |
| JimengCore.StripNonEmptyConcat | pkg/client/spide/jimeng_core.py:167 | The strip-and-drop-empties step distributes over concatenation of the piece lists. |
| JimengCore.StripNonEmptyKeeps | pkg/client/spide/jimeng_core.py:167 | Pieces that are already stripped and non-empty pass through unchanged. |
| JimengCore.GenerateCookie | pkg/client/spide/jimeng_core.py:242-251 | The cookie is the fixed text plus five copies of the token. |
| JimengCore.CookieRoundTrip | pkg/client/spide/jimeng_core.py:228-251 | Reading back the cookie made from a refresh token gives exactly sessionid, sessionid_ss, sid_tt, uid_tt and uid_tt_ss, in that order, each set to the token. The token must contain no `;`. |
| JimengCore.StampVersion4 | pkg/client/spide/jimeng_core.py:116-126 | A random UUID keeps all sixteen random bytes except the version nibble, which becomes 4, and the variant bits, which become 10. |
| JimengCore.UuidHyphenLayout | pkg/client/spide/jimeng_core.py:116-126 | With hyphens the UUID is 36 characters, with hyphens at 8, 13, 18 and 23, a 4 at 14 and one of 8, 9, a or b at 19. |
| JimengCore.UuidWithoutHyphens | pkg/client/spide/jimeng_core.py:116-126 | Without hyphens it is the 32 lower-case hex digits of the stamped bytes, which parse back to those bytes. |
| JimengCore.SignPreimageFields | pkg/client/spide/jimeng_core.py:307 | The MD5 pre-image splits on `\|` into the salt, the URI's last seven characters (or the whole URI when shorter), "7", "5.8.0", the decimal device time, an empty field and "11ac". |
| JimengCore.RequestParams | pkg/client/spide/jimeng_core.py:319-326 | Every key the caller gives takes the caller's value, and every other key keeps its default. The four defaults come first and the keys stay distinct. |
| JimengCore.RequestParamsDefaults | pkg/client/spide/jimeng_core.py:319-326 | A default the caller does not override keeps its value: aid "513695", device_platform "web", region "CN", web_id. |
| JimengCore.RequestHeaders | pkg/client/spide/jimeng_core.py:309-317 | The caller's headers override, and every other header keeps its value from the browser headers plus cookie, time and sign. The browser headers keep their order at the front. |
| JimengCore.RequestHeadersDefaults | pkg/client/spide/jimeng_core.py:309-317 | A header the caller does not override keeps its value: Cookie, Device-Time, Sign, Sign-Ver "1", Appid, Appvr and Pf. |
| JimengCore.BaseHeadersDefaults | pkg/client/spide/jimeng_core.py:309-315 | The base header set carries the cookie, device time, sign, Sign-Ver "1" and the app id, version and platform codes. |
| JimengCore.FakeHeaderValues | pkg/client/spide/jimeng_core.py:194-226 | The browser header set carries Appid "513695", Appvr "5.8.0" and Pf "7". |
| JimengCore.Prepare | pkg/client/spide/jimeng_core.py:305-337 | The request goes to the site origin plus the URI, with the verb lower-cased and the body as given. |
| JimengCore.PrepareSigned | pkg/client/spide/jimeng_core.py:305-326 | With no caller headers, the request carries: Sign = MD5 of the pre-image; the cookie from the refresh token; the decimal device time; and, with no caller params, the default aid. |
| JimengCore.DecompressResponse | pkg/client/spide/jimeng_core.py:370-390 | `gzip` and `br`, in any letter case, are decompressed and then decoded as UTF-8. A failure at either step is a failure of the whole. |
| JimengCore.DecompressPassThrough | pkg/client/spide/jimeng_core.py:379-390 | Any other encoding, or none, decodes the raw bytes, exactly as if no header were present. |
| JimengCore.DecompressCaseInsensitive | pkg/client/spide/jimeng_core.py:380-390 | Only the lower-cased encoding matters: two spellings that lower-case alike decompress alike. |
| JimengCore.UpperCaseEncodings | pkg/client/spide/jimeng_core.py:380-387 | "GZIP" and "Br" are treated like "gzip" and "br". |
| JimengCore.ResponseText | pkg/client/spide/jimeng_core.py:345-351 | When decompression fails the response's own text is used. |
| JimengCore.Envelope | pkg/client/spide/jimeng_core.py:357-367 | A body without `ret` is returned whole. Any other success is the `data` field. Every typed error is InsufficientPoints or RequestFailed. A body that is not a dict is an AttributeError. |
| JimengCore.EnvelopeClassification | pkg/client/spide/jimeng_core.py:357-367 | ret "0" or 0 gives `data` (an empty dict when `data` is missing). ret "5000" or 5000 raises code -2009. Any other non-None ret raises code -2001. |
| JimengCore.ParseBody | pkg/client/spide/jimeng_core.py:340-355 | Text that does not decode as JSON is RequestFailed("响应格式错误"), and only such text fails. |
| JimengCore.Receive | pkg/client/spide/jimeng_core.py:339-367 | A response body either fails to decode, which is a RequestFailed error, or goes through the envelope rule. |
| JimengCore.CheckResult | pkg/client/spide/jimeng_core.py:254-279 | An undecodable body is a decode error and a non-dict body an AttributeError. A body whose `ret` is not finite is returned whole. An integer `ret` beyond the range of a double raises OverflowError, which escapes. A finite `ret` is compared with the strings "0" and "5000" as it is, without `str()`. "0" returns `data` (None when absent), "5000" raises InsufficientPoints (-2009), and every other finite `ret` raises RequestFailed (-2001). |
| JimengCore.CheckResultStringCodes | pkg/client/spide/jimeng_core.py:254-279 | The string codes "0" and "5000" and a missing ret are treated as `request` treats them. |
| JimengCore.CheckResultAgreesWithEnvelope | pkg/client/spide/jimeng_core.py:270-279 | For every finite `ret` that is not an integer, `check_result` fails exactly when `request` does, with the same typed error. When `data` is present, both return the same value. |
| JimengCore.CheckResultIntegerCodes | pkg/client/spide/jimeng_core.py:270-279 | Unlike `request`, `check_result` compares `ret` with strings only. So every integer ret that converts to a float, 0 included, raises RequestFailed (-2001), where `request` would accept 0. An integer ret of magnitude at least 2^1024 - 2^970 raises OverflowError instead. |
| JimengCore.IsFinite | pkg/client/spide/jimeng_core.py:96-102 | Booleans and integers in double range are finite, and a string is finite when it parses to a finite float. None, lists and dicts are not. An integer outside double range raises an OverflowError that `is_finite` does not catch, and nothing else raises. |
| UploadSigner.Hash256 | pkg/client/spide/jimeng.py:39-40 | The digest text is lower-case hex, two characters per digest byte, and it parses back to the SHA-256 of the UTF-8 of the message. |
| UploadSigner.U | pkg/client/spide/jimeng.py:54-57 | The query string is empty exactly when there are no params. |
| UploadSigner.UOrderIndependent | pkg/client/spide/jimeng.py:54-57 | Two dicts with the same entries give the same query string, whatever their insertion order. |
| UploadSigner.USortedInput | pkg/client/spide/jimeng.py:54-57 | On key-sorted params the query string is the `k=v` pieces joined by `&` in the given order. |
| UploadSigner.UAvoids | pkg/client/spide/jimeng.py:54-57 | A character absent from every key and value, other than `=` and `&`, is absent from the query string. |
| UploadSigner.UParses | pkg/client/spide/jimeng.py:54-57 | Reading the query string back gives the params sorted by key. This needs keys without `=` or `&` and values without `&`. |
| UploadSigner.CanonicalString | pkg/client/spide/jimeng.py:96-104 | The canonical request exists exactly when params is not None. With None it is an AttributeError. |
| UploadSigner.CanonicalLayout | pkg/client/spide/jimeng.py:96-113 | The canonical request is: verb, "/", the query string, the date and token header lines, a blank line, the signed-header list and the hash of the empty body, joined by newlines. |
| UploadSigner.CanonicalLines | pkg/client/spide/jimeng.py:96-113 | When no field contains a line break, the canonical request splits into exactly those eight lines. |
| UploadSigner.CredentialLayout | pkg/client/spide/jimeng.py:93-94 | The credential scope is the first eight characters of the timestamp, then cn-north-1, imagex and aws4_request, separated by `/`. |
| UploadSigner.CredentialComponents | pkg/client/spide/jimeng.py:93-94 | A timestamp without `/` gives a scope that splits back into its four parts. A timestamp without a line break gives a scope without one. |
| UploadSigner.StringToSign | pkg/client/spide/jimeng.py:85-91 | The string to sign exists exactly when the canonical request does. |
| UploadSigner.StringToSignLines | pkg/client/spide/jimeng.py:85-91 | The string to sign is four lines: the algorithm, the timestamp, the scope, and the hex hash of the canonical request. |
| UploadSigner.SigningKeyIsChain | pkg/client/spide/jimeng.py:79-83 | The signing key is the HMAC chain over the four scope parts, keyed by "AWS4" + secret. Timestamps on the same day give the same key. |
| UploadSigner.Signature | pkg/client/spide/jimeng.py:75-77 | The signature exists exactly when params is not None. It is lower-case hex that parses back to the HMAC of the string to sign under the signing key, which is the HMAC chain over the scope keyed by "AWS4" + secret. |
| UploadSigner.Authorization | pkg/client/spide/jimeng.py:69-73 | The header exists exactly when params is not None. |
| UploadSigner.AuthorizationLayout | pkg/client/spide/jimeng.py:69-94 | The header is the algorithm, then `Credential=` with the access key and the same scope `credentialString()` gives, then the signed-header list, then the signature. |
| UploadSigner.SignatureDeterministic | pkg/client/spide/jimeng.py:54-113 | Same credentials, timestamp, verb and param entries give the same signature and header, whatever the params' insertion order. |
| UploadSigner.FileCrc32 | pkg/client/spide/jimeng.py:50-51 | The checksum is 1 to 8 lower-case hex digits with no leading zero. It parses back to the CRC masked to 32 bits. |
| UploadSigner.BuildImageInfo | pkg/client/spide/jimeng.py:162-179 | There is a result exactly when the file is read and non-empty. It carries the path, the bytes, their length and the default content type. Its checksum is `fileCRC32`'s text for the bytes, a hex string that parses back to the masked CRC. |
| UploadSigner.UploadUrlParts | pkg/client/spide/jimeng.py:149-150 | After `https://`, the URL splits at its first `/` into the host and the uri, when the host has no `/`. |
| UploadSigner.UploadUrl | pkg/client/spide/jimeng.py:149-150 | The upload URL always starts with `https://`. |
| UploadSigner.PopulationLiteral | pkg/client/spide/jimeng.py:131 | The alphabet defined by character ranges is the literal `zyx…a0123456789`. |
| UploadSigner.PopulationFacts | pkg/client/spide/jimeng.py:131 | The alphabet has no repeated character, and holds exactly the lower-case letters and the digits. |
| UploadSigner.Sample | pkg/client/spide/jimeng.py:131 | A sample of n has length n and draws only from the pool. It repeats no character when the pool has none. |
| UploadSigner.RandomStr | pkg/client/spide/jimeng.py:130-131 | There is a result exactly for 0 <= n <= 36; other n raise ValueError. The result has n distinct characters, each a lower-case letter or a digit. |
| ImageWorker.Validate | pkg/client/spide/jimeng.py:271-275 | A request passes exactly when the prompt is a non-empty string and the refresh token is truthy. A bad prompt is reported first, with its own message. |
| ImageWorker.GenerateType | pkg/client/spide/jimeng.py:287 | The type is "blend" exactly when an image URI is given (truthy), otherwise "generate". |
| ImageWorker.BuildSubmission | pkg/client/spide/jimeng.py:285-350 | The draft holds one component, which is the main component. Draft, minimum and component versions are all "3.0.2". It uses the blend rule, sends aid 513695 and uses the entrance detail `to_image-` + model. |
| ImageWorker.SubmissionDraftConsistent | pkg/client/spide/jimeng.py:328-332 | The draft's main component id names a component in its list. |
| ImageWorker.HistoryId | pkg/client/spide/jimeng.py:353-356 | An id is returned, and it is truthy, exactly when `aigc_data.history_record_id` is truthy. |
| ImageWorker.HistoryIdMissing | pkg/client/spide/jimeng.py:354-356 | A missing or falsy id raises ImageGenerationFailed("记录ID不存在"). |
| ImageWorker.ReadRecord | pkg/client/spide/jimeng.py:466-472 | A record is read only from a dict answer holding a truthy dict under the history id, with item_list defaulting to []. A missing or falsy record raises "记录不存在". A failed request propagates. |
| ImageWorker.Poll | pkg/client/spide/jimeng.py:359-472 | A finished wait ends at an answer whose record has a status other than 20. |
| ImageWorker.PollFirstStop | pkg/client/spide/jimeng.py:363-472 | The loop stops at the first answer that fails or is not at status 20, and only there. Every earlier record was at status 20. |
| ImageWorker.ItemUrlCases | pkg/client/spide/jimeng.py:480-485 | For every dict item, by the shape of its `image`. Without `image`, or with an `image` that has no `large_images` (the default `[{}]` applies), the cover URL is used, or None when there is none. With a non-empty list whose first element is a dict, that element's truthy `image_url` wins and the cover URL is the fallback. An empty list raises IndexError. |
| ImageWorker.ItemUrl | pkg/client/spide/jimeng.py:480-485 | A non-dict item, or an `image` that is not a dict, raises AttributeError. A falsy URL is only ever the item's cover URL, or None. |
| ImageWorker.ItemUrlFixedAgrees | pkg/client/spide/jimeng.py:480-485 | The repaired URL rule agrees with the written one wherever `large_images` is not an empty list. |
| ImageWorker.ItemUrlFixedTotal | pkg/client/spide/jimeng.py:480-485 | On items of the documented shape the repaired rule never raises. |
| ImageWorker.TruthyItems | pkg/client/spide/jimeng.py:483-484 | The kept items are exactly the truthy items of the list: each kept item comes from the list and is truthy, and every truthy item of the list is kept. |
| ImageWorker.TruthyItemsSingle | pkg/client/spide/jimeng.py:483-484 | A one-item list keeps its item exactly when the item is truthy. |
| ImageWorker.TruthyItemsConcat | pkg/client/spide/jimeng.py:483-484 | Filtering distributes over concatenation, so the kept items stay in list order. |
| ImageWorker.MapUrls | pkg/client/spide/jimeng.py:480-485 | The rule is applied to the items in order. The result is Ok exactly when the rule succeeds on every item, and then it holds each item's value at the item's position. An error is that of the first failing item, and every item before it succeeded. |
| ImageWorker.ExtractWith | pkg/client/spide/jimeng.py:480-485 | One result per truthy item, in order, each the URL rule's value for that item. A failure is the error of the first truthy item whose rule fails, and the rule succeeded on every truthy item before it. |
| ImageWorker.ExtractFrom | pkg/client/spide/jimeng.py:472-485 | A list is walked item by item. None, a boolean or a number in place of the list is a TypeError. |
| ImageWorker.ExtractUrls | pkg/client/spide/jimeng.py:479-485 | On a list, a result holds one URL per truthy item, in order, each what the item-URL rule gives for that item. None, a boolean or a number in place of the list is a TypeError. |
| ImageWorker.ConcludeFixed | pkg/client/spide/jimeng.py:474-485 | Status 30 with fail code "2038" raises ContentFiltered (-2006), and status 30 otherwise raises ImageGenerationFailed (-2007). Any other status extracts the URLs. |
| ImageWorker.Conclude | pkg/client/spide/jimeng.py:474-485 | As written, a finished record at status 30 always ends in TypeError, whatever its fail code. |
| ImageWorker.ConcludeStatusThirty | pkg/client/spide/jimeng.py:474-477 | At status 30 the written flow raises TypeError, while the repaired flow raises one of the typed errors. |
| ImageWorker.ConcludeOtherStatus | pkg/client/spide/jimeng.py:474-485 | Away from status 30 the written and repaired flows both extract the URLs. |
| ImageWorker.GenerateWith | pkg/client/spide/jimeng.py:241-485 | Validation errors come first, then the generate call's error, then the history-id error. After that, a failed poll gives its error, and a record still running when the answers run out gives StillWaiting. A finished record gives the classification's error, or its URL list. A URL list only comes from a poll that finished and a classification that succeeded. |
| ImageWorker.GenerateImages | pkg/client/spide/jimeng.py:241-485 | As written, a generation whose record finishes at status 30 ends in TypeError, and a URL list only ever comes from a record that finished at a status other than 30. |
| ImageWorker.FilteredScenario | pkg/client/spide/jimeng.py:359-477 | For answers [status 20, then status 30 with "2038"], the written flow raises TypeError and the repaired flow raises ContentFiltered. |
| ImageWorker.FilteredPolls | pkg/client/spide/jimeng.py:363-472 | Those answers take two polls and end on the status-30 record. |
| ImageEditor.NewEditor | pkg/client/llm/image.py:12-25 | The editor posts to the synthesis endpoint with asynchronous mode on and the key as a bearer token. Its template is shaped with an `input` dict. |
| ImageEditor.BuildPayload | pkg/client/llm/image.py:27-30 | The payload returned is the client's template. It has the given prompt and base image URL, and every other key of `input` and of the template is unchanged. |
| ImageEditor.LastWriteWins | pkg/client/llm/image.py:19-30 | Because the template is shared, a second call leaves the same template as the second call alone. The first call's prompt and URL are gone. |
| ImageEditor.FreshPayload | pkg/client/llm/image.py:19-30 | On a fresh client the payload is model `wanx2.1-imageedit`, function `stylization_all` and n = 1, plus the given prompt and URL. |
| ImageEditor.TaskStatus | pkg/client/llm/image.py:69 | The status is readable exactly when the body and its output (default {}) are dicts. A missing status reads as "UNKNOWN". |
| ImageEditor.Step | pkg/client/llm/image.py:64-81 | SUCCEEDED ends with the body's `output`, and only SUCCEEDED does. FAILED raises with the output's `error` or "未知错误". Every other status keeps polling. A failed request propagates. |
| ImageEditor.MissingStatusKeepsPolling | pkg/client/llm/image.py:69-81 | A body without `output`, or whose output has no `task_status`, keeps the loop going. |
| ImageEditor.CheckTaskStatus | pkg/client/llm/image.py:51-81 | The poll returns the output of the first decisive answer, after which nothing is polled. It raises the first error. It returns nothing only when every answer said keep polling. |
| ImageEditor.PendingThenSucceeded | pkg/client/llm/image.py:64-81 | PENDING, RUNNING, then SUCCEEDED: three polls, ending with the final output. |
| ApiTool.CheckAnyOfOrType | pkg/client/llm/api_tool.py:26-33 | A schema is accepted unchanged exactly when exactly one of `anyOf` and `type` is present. Neither and both are rejected with different messages. |
| ApiTool.MakeArgProperty | pkg/client/llm/api_tool.py:16-33 | A parameter is built exactly when the schema is a dict that passes the check and `required` reads as a bool. It keeps both. |
| ApiTool.AsBool | pkg/client/llm/api_tool.py:25 | A bool is read as itself, and the integers 0 and 1 as False and True, other integers not at all. A string reads as True exactly when, lower-cased, it is one of 1, on, t, true, y or yes, and as False exactly when it is one of 0, off, f, false, n or no. |
| ApiTool.JsonSchemaProperties | pkg/client/llm/api_tool.py:40-44 | Same names in the same order, each mapped to its parameter's schema. |
| ApiTool.JsonSchemaLookup | pkg/client/llm/api_tool.py:40-44 | Looked up by name, the projection has exactly the parameters' names, and each finds its parameter's schema. |
| ApiTool.ValidateName | pkg/client/llm/api_tool.py:52-59 | A name is accepted, unchanged, exactly when it has a character other than `_` and all such characters are alphanumeric. |
| ApiTool.NamesWithRequired | pkg/client/llm/api_tool.py:64-67 | The names with a given `required` flag, listed in parameter order, and exactly those. |
| ApiTool.RequiredListInverted | pkg/client/llm/api_tool.py:64-67 | Every parameter lands in exactly one of the as-written list and the intended list. The intended list holds exactly the required parameters. |
| ApiTool.ParameterSchemaAsWritten | pkg/client/llm/api_tool.py:61-77 | The schema is titled name + "ArgsSchema", has type object and uses the projected properties and the list of non-required names. |
| ApiTool.ParameterSchemaFixed | pkg/client/llm/api_tool.py:61-77 | The same schema, with the list of required names. |
| ApiTool.ValidateUrl | pkg/client/llm/api_tool.py:93-102 | A URL is accepted, unchanged, exactly when it starts with `http://` or `https://`. Anything else is "Invalid URL". |
| ApiTool.LoadSchema | pkg/client/llm/api_tool.py:187-204 | Registration succeeds exactly when the name and URL validate. It then appends one API with the given URL, verb POST and the function built from the arguments. Earlier APIs are untouched. |
| ApiTool.LoadSchemaTwice | pkg/client/llm/api_tool.py:187-204 | Two registrations append two APIs in call order and keep the earlier list. |
| ApiTool.CollectParams | pkg/client/llm/api_tool.py:165-176 | Collected parameters keep distinct names and never lose a name. A clean result means no name was a non-string. |
| ApiTool.CollectParamsSucceeds | pkg/client/llm/api_tool.py:165-176 | Collection succeeds exactly when every entry is a dict whose schema and `required` build a parameter and whose name is not a list or dict. |
| ApiTool.CollectParamsFirstError | pkg/client/llm/api_tool.py:165-176 | A failure is the error of the first bad entry, and every entry before it is good. A non-dict entry is an AttributeError. A bad schema or `required` gives its validation error. A list or dict name is a TypeError, because it cannot be a dict key. |
| ApiTool.CollectParamsFlag | pkg/client/llm/api_tool.py:165-176 | On success, the non-string-name flag is set exactly when it was set on entry or some entry has a name that is not a string (None, a bool or an int). |
| ApiTool.CollectParamsLookup | pkg/client/llm/api_tool.py:165-176 | On success, each string name maps to the parameter built from the last entry carrying that name. A name no entry carries keeps its earlier value. |
| ApiTool.ParamEntries | pkg/client/llm/api_tool.py:165-166 | A list is iterated as its elements. An empty string or empty dict gives no entries. A non-empty string or dict fails on `.get` with AttributeError. None, a boolean or a number is a TypeError. |
| ApiTool.LoadOpenApi | pkg/client/llm/api_tool.py:145-182 | A successful load appends exactly one API at `server + path` with verb POST. |
| ApiTool.UnknownPathRejected | pkg/client/llm/api_tool.py:154-157 | A path the document lacks is refused with "Invalid url_path", and nothing is registered. |

## Left out

- **Network I/O.** All network I/O is left out: `requests.*` calls, `raise_for_status`, timeouts, TLS and logging. Each answer is an input value.
- **Functions built from calls that are not modelled.** `get_upload_token`, `JMImageUploader.get_upload_address` and `JMImageUploader.upload` are sequences of HTTP calls around the signer. The signer they use is modelled.
- **Helpers of `generate_images`.** `get_model`, `get_credit`, `receive_credit` and `build_abilities` are not part of this model. `get_as_pic` and `single_image_to_images` are also out, because they are file and upload plumbing.
- **Sleeps.** `time.sleep` between polls (1 s and `poll_interval`) is left out. So is the clock read by `get_timestamp`: the device time is a parameter.
- **Cryptography and codecs.** SHA-256, HMAC, MD5, CRC32, UUID4 randomness, `random.sample`'s random source, gzip, Brotli, UTF-8 and `json.loads` are parameters, not implementations.
- **Floats.** JSON floats are not modelled, so a status of `20.0`, which Python compares equal to `20`, is outside the model.
- **Upload-token dict.** The `KeyError` for a missing key in the upload-token dict is not modelled, because the token is a record with three fields.
- **`load_openapi_json` file reading.** Reading the file and the `responses…$ref` chain with its `json.dumps` are not modelled: the decoded document is an input and `output` is given.
- **`Function.create_parameter_model`.** The pydantic model factory (`create_model_from_schema`) is out. The model stops at the schema dict handed to it.
- **Other `HttpAPI` methods.** `request`, `wrap_result`, `to_structured_tool`, `to_mcp_tool` and `HttpAPIManager.dumps` are out, because they wrap network calls or are empty.
- **`image_2_image`.** The POST is I/O. Its payload is `ImageEditor.BuildPayload`.
- **Constants.** `MODEL_MAP`, `json_encode` and `url_encode` are not modelled, since they only shape values that are sent out.
- JimengCore.Prepare: the verb is lower-cased for ASCII letters only. Python's `.lower()` also folds non-ASCII letters, which no HTTP verb holds.
- ApiTool.AsBool: pydantic's lax bool reading is modelled for JSON values only. Floats such as `1.0` are out of the model.
- ApiTool.CollectParams: a hashable non-string name (None, a bool or an int) is only flagged, and the final validation error stands for pydantic's report of it. A list or dict name is a TypeError at once, as in the code.
- ApiTool.LoadOpenApi: states where the API goes and how many are added. What is registered is `LoadSchema`'s contract.
- ImageWorker.Poll: the loop has no attempt cap, so a script of answers that are all still running ends in `StillRunning`, not in an endless loop.

## Findings

| source | as written | input that shows it | evidently intended | confidence | as-written member | corrected member |
|---|---|---|---|---|---|---|
| pkg/client/spide/jimeng.py:474-477 | `API_CONTENT_FILTERED()` and `API_IMAGE_GENERATION_FAILED()` are called with no argument, but their constructors require `message`, so status 30 always raises `TypeError` | a poll answer with status 30 and fail_code "2038" after one at status 20 | raise ContentFiltered (-2006) for "2038", else ImageGenerationFailed (-2007) | not executed | ImageWorker.ConcludeStatusThirty | ImageWorker.ConcludeFixed |
| pkg/client/spide/jimeng.py:481 | `.get("large_images", [{}])[0]` indexes a present but empty list, raising `IndexError` before the `or` can fall back | an item `{"image": {"large_images": []}, "common_attr": {"cover_url": c}}` | fall back to the cover URL | not executed | ImageWorker.EmptyLargeImages | ImageWorker.ItemUrlFixedTotal |
| pkg/client/llm/api_tool.py:64-67 | the JSON-schema `required` list collects the parameters whose `required` flag is False | one parameter `q` with `required=True` | list the parameters whose flag is True | not executed | ApiTool.RequiredListCounterexample | ApiTool.RequiredListInverted |
