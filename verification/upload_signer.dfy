/**
 The upload side of the image client: the request signer for the image store
 (AWS Signature Version 4, tasks 1 to 3, with region `cn-north-1` and service
 `imagex` fixed), the query string it signs, the CRC32 checksum text, the image
 descriptor, the upload URL and the random nonce put in the query.

 SHA-256, HMAC-SHA256, UTF-8 encoding and CRC32 are not computed: they are the
 fields of `Primitives` and parameters, so every property below holds for any
 implementation of them.
 */
module UploadSigner {
  import opened Wrappers
  import opened Text
  import opened Numerals
  import opened OrderedDict
  import opened JimengErrors

  /** `str.encode("utf-8")`, the SHA-256 digest and the HMAC-SHA256 digest
      (key bytes, message bytes). */
  datatype Primitives = Primitives(
    utf8: string -> seq<byte>,
    sha256: seq<byte> -> seq<byte>,
    hmac: (seq<byte>, seq<byte>) -> seq<byte>)

  const Algorithm: string := "AWS4-HMAC-SHA256"
  const Region: string := "cn-north-1"
  const Service: string := "imagex"
  const Terminator: string := "aws4_request"
  const SignedHeaders: string := "x-amz-date;x-amz-security-token"

  /** `hash256(msg)`: the hex digest of the SHA-256 of the UTF-8 of `msg`. */
  function Hash256(p: Primitives, msg: string): (r: string)
    ensures AllHex(r) && |r| == 2 * |p.sha256(p.utf8(msg))|
    ensures ParseHexBytes(r) == p.sha256(p.utf8(msg))
  {
    ParseHexBytesInverse(p.sha256(p.utf8(msg)));
    HexBytes(p.sha256(p.utf8(msg)))
  }

  /** Hex digits are neither newlines nor any other separator used here. */
  lemma {:induction false} HexAvoids(s: string, c: char)
    requires AllHex(s) && !IsHexDigit(c)
    ensures c !in s
  {
  }

  /** The key argument of `hmac_hash256`: a text key is UTF-8 encoded, an HMAC
      object contributes its digest. */
  datatype MacKey = TextKey(text: string) | DigestKey(digest: seq<byte>)

  /** `hmac_hash256(key, msg)`, represented by the digest of the HMAC object. */
  function HmacHash256(p: Primitives, key: MacKey, msg: string): seq<byte> {
    match key
    case TextKey(text) => p.hmac(p.utf8(text), p.utf8(msg))
    case DigestKey(d) => p.hmac(d, p.utf8(msg))
  }

  /** The dict returned by the upload-token endpoint, reduced to the three keys
      the signer reads. */
  datatype UploadToken = UploadToken(accessKeyId: string, secretAccessKey: string, sessionToken: string)

  /** An `ImageRequestBuilder`: credentials `e`, timestamp `t` (`%Y%m%dT%H%M%SZ`),
      endpoint `api`, HTTP verb (default "GET"), query params (default None) and
      body (default None). */
  datatype Builder = Builder(
    e: UploadToken,
    t: string,
    api: string,
    verb: string,
    params: Option<Dict<string>>,
    data: Option<string>)

  /** Python dicts never hold a key twice. */
  predicate WellFormed(b: Builder) {
    b.params.Some? ==> DistinctKeys(b.params.value)
  }

  // ---------------------------------------------------------------- u(params)

  /** The `f"{k}={v}"` piece of every item, in order. */
  function QueryPieces(d: Dict<string>): (r: seq<string>)
    ensures |r| == |d|
    ensures forall i :: 0 <= i < |d| ==> r[i] == d[i].0 + "=" + d[i].1
  {
    if |d| == 0 then [] else [d[0].0 + "=" + d[0].1] + QueryPieces(d[1..])
  }

  /** `u(params)`: the items sorted by key, each written `k=v`, joined by `&`.
      It is empty exactly when there are no params. */
  function U(params: Dict<string>): (r: string)
    requires DistinctKeys(params)
    ensures r == "" <==> |params| == 0
  {
    var pieces := QueryPieces(SortByKey(params));
    if |pieces| > 0 then
      assert pieces[0][|pieces[0]| - |SortByKey(params)[0].1| - 1] == '=';
      JoinFirstChar(pieces, "&");
      Join(pieces, "&")
    else
      Join(pieces, "&")
  }

  /** A join whose first piece is non-empty is non-empty. */
  lemma {:induction false} JoinFirstChar(parts: seq<string>, sep: string)
    requires |parts| > 0 && |parts[0]| > 0
    ensures Join(parts, sep) != ""
  {
  }

  /** `u` sees only the contents of the dict: two dicts with the same entries,
      inserted in any order, give the same query string. */
  lemma {:induction false} UOrderIndependent(p: Dict<string>, q: Dict<string>)
    requires DistinctKeys(p) && DistinctKeys(q)
    requires forall x :: Lookup(p, x) == Lookup(q, x)
    ensures U(p) == U(q)
  {
    SortedUnique(SortByKey(p), SortByKey(q));
  }

  /** For params already in ascending key order, `u` writes the items in that
      order. */
  lemma {:induction false} USortedInput(p: Dict<string>)
    requires SortedByKey(p)
    ensures DistinctKeys(p)
    ensures U(p) == Join(QueryPieces(p), "&")
  {
    SortedDistinct(p);
    SortedUnique(SortByKey(p), p);
  }

  predicate KeysAvoid(d: Dict<string>, c: char) {
    forall i :: 0 <= i < |d| ==> c !in d[i].0
  }

  predicate ValuesAvoid(d: Dict<string>, c: char) {
    forall i :: 0 <= i < |d| ==> c !in d[i].1
  }

  /** Sorting keeps the items, so it keeps what their keys and values avoid. */
  lemma {:induction false} SortAvoids(d: Dict<string>, c: char)
    requires DistinctKeys(d)
    ensures KeysAvoid(d, c) ==> KeysAvoid(SortByKey(d), c)
    ensures ValuesAvoid(d, c) ==> ValuesAvoid(SortByKey(d), c)
  {
    var s := SortByKey(d);
    SortedDistinct(s);
    forall i | 0 <= i < |s| ensures exists j :: 0 <= j < |d| && d[j] == s[i] {
      var j := SameEntries(d, s, i);
    }
  }

  /** A character in no key, in no value, and other than `=` and `&` does not
      occur in the query string. */
  lemma {:induction false} UAvoids(d: Dict<string>, c: char)
    requires DistinctKeys(d) && KeysAvoid(d, c) && ValuesAvoid(d, c)
    requires c != '=' && c != '&'
    ensures c !in U(d)
  {
    SortAvoids(d, c);
    var pieces := QueryPieces(SortByKey(d));
    JoinAvoids(pieces, "&", c);
  }

  /** Reading a query string back: split on `&`, then each piece at its first `=`. */
  function ParseQuery(s: string): (r: Dict<string>)
    ensures s == "" ==> r == []
  {
    if s == "" then []
    else
      var pieces := Split(s, '&');
      seq(|pieces|, i requires 0 <= i < |pieces| => SplitFirst(pieces[i], '='))
  }

  /** `u` loses nothing when keys hold neither `=` nor `&` and values hold no
      `&`: reading the query string back gives the items in ascending key order. */
  lemma {:induction false} UParses(d: Dict<string>)
    requires DistinctKeys(d)
    requires KeysAvoid(d, '=') && KeysAvoid(d, '&') && ValuesAvoid(d, '&')
    ensures ParseQuery(U(d)) == SortByKey(d)
  {
    var s := SortByKey(d);
    SortAvoids(d, '=');
    SortAvoids(d, '&');
    var pieces := QueryPieces(s);
    if |d| > 0 {
      forall i | 0 <= i < |pieces| ensures '&' !in pieces[i] {
        assert pieces[i] == s[i].0 + "=" + s[i].1;
      }
      SplitJoin(pieces, '&');
      assert Split(U(d), '&') == pieces;
      var r := ParseQuery(U(d));
      forall i | 0 <= i < |s| ensures r[i] == s[i] {
        assert pieces[i] == s[i].0 + ['='] + s[i].1;
        SplitFirstAt(s[i].0, '=', s[i].1);
      }
    }
  }

  // ------------------------------------------------- task 1: canonical request

  /** `canonicalHeaders()`: the two signed headers, each line ending in a newline. */
  function CanonicalHeaders(b: Builder): string {
    "x-amz-date:" + b.t + "\n" + "x-amz-security-token:" + b.e.sessionToken + "\n"
  }

  /** `canonicalString()`: verb, the fixed path `/`, `u(params)`, the canonical
      headers, the signed-header list and the hash of the empty body, joined by
      newlines. `u(None)` fails on `None.items()`. */
  function CanonicalString(p: Primitives, b: Builder): (r: Result<string, Error>)
    requires WellFormed(b)
    ensures r.Ok? <==> b.params.Some?
    ensures r.Err? ==> r.error == Fault(AttributeError)
  {
    match b.params
    case None => Err(Fault(AttributeError))
    case Some(ps) =>
      Ok(Join([b.verb, "/", U(ps), CanonicalHeaders(b), SignedHeaders, Hash256(p, "")], "\n"))
  }

  /** The canonical request written out field by field: the path is `/` whatever
      `api` names, and the headers block contributes its own trailing newline. */
  lemma {:induction false} CanonicalLayout(p: Primitives, b: Builder)
    requires WellFormed(b) && b.params.Some?
    ensures CanonicalString(p, b).Ok?
    ensures CanonicalString(p, b).value ==
            b.verb + "\n" + "/" + "\n" + U(b.params.value) + "\n" + "x-amz-date:" + b.t + "\n" +
            "x-amz-security-token:" + b.e.sessionToken + "\n" + "\n" + SignedHeaders + "\n" + Hash256(p, "")
  {
    var ps := b.params.value;
    var u := U(ps);
    var h := Hash256(p, "");
    Join6(b.verb, "/", u, CanonicalHeaders(b), SignedHeaders, h, "\n");
    Regroup(b.verb, "/", u, "x-amz-date:", b.t, "x-amz-security-token:", b.e.sessionToken, SignedHeaders, h, "\n");
  }

  /** Re-association of the canonical request's pieces. */
  lemma {:induction false} Regroup(v: string, s: string, u: string, d: string, t: string, k: string, tok: string,
                                   sh: string, h: string, nl: string)
    ensures v + nl + (s + nl + (u + nl + ((d + t + nl + k + tok + nl) + nl + (sh + nl + h))))
         == v + nl + s + nl + u + nl + d + t + nl + k + tok + nl + nl + sh + nl + h
  {
  }

  /** No line break inside any field. */
  predicate SingleLine(b: Builder) {
    '\n' !in b.verb && '\n' !in b.t && '\n' !in b.e.sessionToken &&
    (b.params.Some? ==> KeysAvoid(b.params.value, '\n') && ValuesAvoid(b.params.value, '\n'))
  }

  /** The canonical request read back line by line: when no field holds a line
      break it is exactly eight lines, the fifth-to-last being the blank line
      that ends the header block. */
  lemma {:induction false} CanonicalLines(p: Primitives, b: Builder)
    requires WellFormed(b) && b.params.Some? && SingleLine(b)
    ensures CanonicalString(p, b).Ok?
    ensures Split(CanonicalString(p, b).value, '\n') ==
            [b.verb, "/", U(b.params.value), "x-amz-date:" + b.t,
             "x-amz-security-token:" + b.e.sessionToken, "", SignedHeaders, Hash256(p, "")]
  {
    var ps := b.params.value;
    var dateLine := "x-amz-date:" + b.t;
    var tokenLine := "x-amz-security-token:" + b.e.sessionToken;
    var u := U(ps);
    var h := Hash256(p, "");
    Assoc5("x-amz-date:", b.t, "\n", "x-amz-security-token:", b.e.sessionToken);
    assert CanonicalHeaders(b) == dateLine + "\n" + tokenLine + "\n";
    UAvoids(ps, '\n');
    HexAvoids(h, '\n');
    HeaderLinesAvoid(b.t, b.e.sessionToken);
    SixFieldsEightLines(b.verb, u, dateLine, tokenLine, SignedHeaders, h);
  }

  lemma {:induction false} Assoc5(a: string, b: string, c: string, d: string, e: string)
    ensures a + b + c + d + e + c == (a + b) + c + (d + e) + c
  {
  }

  /** The two header lines hold no line break of their own. */
  lemma {:induction false} HeaderLinesAvoid(t: string, tok: string)
    requires '\n' !in t && '\n' !in tok
    ensures '\n' !in "x-amz-date:" + t && '\n' !in "x-amz-security-token:" + tok
    ensures '\n' !in SignedHeaders
  {
  }

  /** Six newline-joined fields, the fourth of which is two newline-terminated
      lines, make eight lines. */
  lemma {:induction false} SixFieldsEightLines(v: string, u: string, dl: string, tl: string, sh: string, h: string)
    requires '\n' !in v && '\n' !in u && '\n' !in dl && '\n' !in tl && '\n' !in sh && '\n' !in h
    ensures Split(Join([v, "/", u, dl + "\n" + tl + "\n", sh, h], "\n"), '\n') == [v, "/", u, dl, tl, "", sh, h]
  {
    assert dl + "\n" + tl + "\n" == dl + "\n" + (tl + "\n" + "");
    JoinSplitPart([v, "/", u], dl, tl + "\n" + "", [sh, h], "\n");
    JoinSplitPart([v, "/", u, dl], tl, "", [sh, h], "\n");
    assert [v, "/", u] + [dl + "\n" + (tl + "\n" + "")] + [sh, h] == [v, "/", u, dl + "\n" + tl + "\n", sh, h];
    assert [v, "/", u] + [dl, tl + "\n" + ""] + [sh, h] == [v, "/", u, dl] + [tl + "\n" + ""] + [sh, h];
    var lines := [v, "/", u, dl, tl, "", sh, h];
    assert [v, "/", u, dl] + [tl, ""] + [sh, h] == lines;
    assert forall i :: 0 <= i < |lines| ==> '\n' !in lines[i];
    SplitJoin(lines, '\n');
  }

  // ---------------------------------------------- task 2: the string to sign

  /** The components of the credential scope: date, region, service, terminator. */
  function Scope(t: string): (r: seq<string>)
    ensures |r| == 4 && r[0] == Prefix(t, 8)
  {
    [Prefix(t, 8), Region, Service, Terminator]
  }

  /** `credentialString()`: the scope components joined by `/`. */
  function CredentialString(t: string): string {
    Join(Scope(t), "/")
  }

  /** The credential scope is the date (the first eight characters of `t`)
      followed by the fixed region, service and terminator. */
  lemma {:induction false} CredentialLayout(t: string)
    ensures CredentialString(t) == Prefix(t, 8) + "/" + Region + "/" + Service + "/" + Terminator
  {
    Join4(Prefix(t, 8), Region, Service, Terminator, "/");
  }

  /** Read back on `/`, the credential scope gives its four components when `t`
      holds no `/`; it holds a line break only if `t` does. */
  lemma {:induction false} CredentialComponents(t: string)
    ensures '/' !in t ==> Split(CredentialString(t), '/') == Scope(t)
    ensures '\n' !in t ==> '\n' !in CredentialString(t)
  {
    var d := Prefix(t, 8);
    assert forall c :: c in d ==> c in t;
    FixedAvoid();
    if '/' !in t {
      SplitFour(d, Region, Service, Terminator, '/');
    }
    if '\n' !in t {
      JoinAvoids([d, Region, Service, Terminator], "/", '\n');
    }
  }

  /** The fixed strings of the signer hold neither `/` nor a line break. */
  lemma {:induction false} FixedAvoid()
    ensures '/' !in Region && '/' !in Service && '/' !in Terminator
    ensures '\n' !in Region && '\n' !in Service && '\n' !in Terminator && '\n' !in Algorithm
  {
  }

  /** Four pieces free of the separator are recovered by splitting their join. */
  lemma {:induction false} SplitFour(a: string, b: string, c: string, d: string, sep: char)
    requires sep !in a && sep !in b && sep !in c && sep !in d
    ensures Split(Join([a, b, c, d], [sep]), sep) == [a, b, c, d]
  {
    var parts := [a, b, c, d];
    assert forall i :: 0 <= i < 4 ==> sep !in parts[i];
    SplitJoin(parts, sep);
  }

  /** `stringToSign()`: algorithm, timestamp, credential scope and the hash of the
      canonical request, joined by newlines. */
  function StringToSign(p: Primitives, b: Builder): (r: Result<string, Error>)
    requires WellFormed(b)
    ensures r.Ok? <==> b.params.Some?
  {
    var canonical :- CanonicalString(p, b);
    Ok(Join([Algorithm, b.t, CredentialString(b.t), Hash256(p, canonical)], "\n"))
  }

  /** The string to sign read back line by line: four lines, the last the hex
      SHA-256 of the canonical request. */
  lemma {:induction false} StringToSignLines(p: Primitives, b: Builder)
    requires WellFormed(b) && b.params.Some? && '\n' !in b.t
    ensures StringToSign(p, b).Ok? && CanonicalString(p, b).Ok?
    ensures Split(StringToSign(p, b).value, '\n') ==
            [Algorithm, b.t, CredentialString(b.t), Hash256(p, CanonicalString(p, b).value)]
  {
    var h := Hash256(p, CanonicalString(p, b).value);
    CredentialComponents(b.t);
    HexAvoids(h, '\n');
    FixedAvoid();
    SplitFour(Algorithm, b.t, CredentialString(b.t), h, '\n');
  }

  // ------------------------------------------- task 3: signing key, signature

  /** `getSigningKey()`: HMAC keyed with `"AWS4" + secret` over the date, then
      each step keyed with the previous digest over region, service and
      terminator. */
  function SigningKey(p: Primitives, secret: string, t: string): seq<byte> {
    var o := HmacHash256(p, TextKey("AWS4" + secret), Prefix(t, 8));
    var i := HmacHash256(p, DigestKey(o), Region);
    var s := HmacHash256(p, DigestKey(i), Service);
    HmacHash256(p, DigestKey(s), Terminator)
  }

  /** The HMAC chain: each message signed with the digest of the step before. */
  function HmacChain(p: Primitives, key: seq<byte>, msgs: seq<string>): seq<byte>
    decreases |msgs|
  {
    if |msgs| == 0 then key else HmacChain(p, p.hmac(key, p.utf8(msgs[0])), msgs[1..])
  }

  /** The signing key is the HMAC chain seeded with the UTF-8 of
      `"AWS4" + secret` over exactly the components of the credential scope, so
      it depends on the timestamp only through its date. */
  lemma {:induction false} SigningKeyIsChain(p: Primitives, secret: string, t: string, t': string)
    ensures SigningKey(p, secret, t) == HmacChain(p, p.utf8("AWS4" + secret), Scope(t))
    ensures Prefix(t, 8) == Prefix(t', 8) ==> SigningKey(p, secret, t) == SigningKey(p, secret, t')
  {
    var sc := Scope(t);
    var k0 := p.utf8("AWS4" + secret);
    var k1 := p.hmac(k0, p.utf8(Prefix(t, 8)));
    var k2 := p.hmac(k1, p.utf8(Region));
    var k3 := p.hmac(k2, p.utf8(Service));
    var k4 := p.hmac(k3, p.utf8(Terminator));
    assert sc[1..] == [Region, Service, Terminator];
    assert sc[1..][1..] == [Service, Terminator];
    assert sc[1..][1..][1..] == [Terminator];
    assert HmacChain(p, k3, [Terminator]) == HmacChain(p, k4, []) == k4;
    assert HmacChain(p, k2, [Service, Terminator]) == HmacChain(p, k3, [Terminator]);
    assert HmacChain(p, k1, [Region, Service, Terminator]) == HmacChain(p, k2, [Service, Terminator]);
    assert HmacChain(p, k0, sc) == HmacChain(p, k1, sc[1..]);
  }

  /** `signature()`: the hex HMAC of the string to sign under the signing key. */
  function Signature(p: Primitives, b: Builder): (r: Result<string, Error>)
    requires WellFormed(b)
    ensures r.Ok? <==> b.params.Some?
    ensures r.Ok? ==> AllHex(r.value) && |r.value| % 2 == 0
    ensures r.Ok? ==>
              ParseHexBytes(r.value)
              == p.hmac(HmacChain(p, p.utf8("AWS4" + b.e.secretAccessKey), Scope(b.t)),
                        p.utf8(StringToSign(p, b).value))
  {
    var toSign :- StringToSign(p, b);
    var mac := HmacHash256(p, DigestKey(SigningKey(p, b.e.secretAccessKey, b.t)), toSign);
    SigningKeyIsChain(p, b.e.secretAccessKey, b.t, b.t);
    ParseHexBytesInverse(mac);
    Ok(HexBytes(mac))
  }

  /** `getAuthorization()`: the header value naming the access key, the scope,
      the signed headers and the signature. */
  function Authorization(p: Primitives, b: Builder): (r: Result<string, Error>)
    requires WellFormed(b)
    ensures r.Ok? <==> b.params.Some?
  {
    var sig :- Signature(p, b);
    Ok(AuthorizationHeader(b.e.accessKeyId, b.t, sig))
  }

  /** The f-string of `getAuthorization()`, which spells the scope out inline. */
  function AuthorizationHeader(accessKeyId: string, t: string, sig: string): string {
    Algorithm + " Credential=" + accessKeyId + "/" + Prefix(t, 8) + "/" + Region + "/" + Service +
    "/" + Terminator + ", SignedHeaders=" + SignedHeaders + ", Signature=" + sig
  }

  /** The header embeds the access key, the same scope `credentialString()`
      produces, the signed-header list `signedHeaders()` names and the
      signature, in that order. */
  lemma {:induction false} AuthorizationLayout(p: Primitives, b: Builder)
    requires WellFormed(b) && b.params.Some?
    ensures Authorization(p, b).Ok? && Signature(p, b).Ok?
    ensures Authorization(p, b).value ==
            Algorithm + " Credential=" + b.e.accessKeyId + "/" + CredentialString(b.t) +
            ", SignedHeaders=" + SignedHeaders + ", Signature=" + Signature(p, b).value
  {
    var sig := Signature(p, b).value;
    assert Authorization(p, b).value == AuthorizationHeader(b.e.accessKeyId, b.t, sig);
    CredentialLayout(b.t);
    AuthShape(Algorithm, " Credential=", b.e.accessKeyId, "/", Prefix(b.t, 8), Region, Service, Terminator,
              ", SignedHeaders=", SignedHeaders, ", Signature=", sig, CredentialString(b.t));
  }

  /** Re-association of the header's pieces around the credential scope. */
  lemma {:induction false} AuthShape(a: string, b: string, id: string, sl: string, d: string, r: string, s: string,
                                     term: string, c: string, sh: string, e: string, sig: string, cred: string)
    requires cred == d + sl + r + sl + s + sl + term
    ensures a + b + id + sl + d + sl + r + sl + s + sl + term + c + sh + e + sig
         == a + b + id + sl + cred + c + sh + e + sig
  {
  }

  /** The signature and the header depend on the credentials, the timestamp, the
      verb and the entries of the params only: not on `api`, not on `data` and
      not on the order the params were inserted in. */
  lemma {:induction false} SignatureDeterministic(p: Primitives, b1: Builder, b2: Builder)
    requires WellFormed(b1) && WellFormed(b2)
    requires b1.e == b2.e && b1.t == b2.t && b1.verb == b2.verb
    requires b1.params.Some? && b2.params.Some?
    requires forall x :: Lookup(b1.params.value, x) == Lookup(b2.params.value, x)
    ensures Signature(p, b1) == Signature(p, b2)
    ensures Authorization(p, b1) == Authorization(p, b2)
  {
    UOrderIndependent(b1.params.value, b2.params.value);
  }

  // ------------------------------------------------------ checksum and image

  /** `fileCRC32(buf)`: the CRC reduced to 32 bits (Python's `& 0xFFFFFFFF` on
      any integer, negative ones included) in lower-case hex without prefix or
      padding: one to eight digits that parse back to the reduced value. */
  function FileCrc32(content: seq<byte>, crc32: seq<byte> -> int): (r: string)
    ensures 1 <= |r| <= 8 && AllHex(r)
    ensures |r| > 1 ==> r[0] != '0'
    ensures ParseHex(r) == crc32(content) % 0x1_0000_0000
  {
    var n := crc32(content) % 0x1_0000_0000;
    assert Pow16(8) == 0x1_0000_0000;
    LowerHexLength(n, 8);
    ParseLowerHex(n);
    LowerHex(n)
  }

  /** An `ImageInfo`. */
  datatype ImageInfo = ImageInfo(
    path: string,
    contentType: string,
    content: seq<byte>,
    checksum: string,
    length: nat)

  /** `ImageInfo.build(path)` given what reading the file produced (`None` when
      `open` or `read` raised): no descriptor for an unreadable or empty file,
      otherwise the bytes with their checksum, length and the default content
      type. */
  function BuildImageInfo(path: string, read: Option<seq<byte>>, crc32: seq<byte> -> int): (r: Option<ImageInfo>)
    ensures r.Some? <==> read.Some? && |read.value| > 0
    ensures r.Some? ==> r.value.path == path && r.value.content == read.value
    ensures r.Some? ==> r.value.length == |read.value| && r.value.contentType == "application/octet-stream"
    ensures r.Some? ==> AllHex(r.value.checksum) && ParseHex(r.value.checksum) == crc32(read.value) % 0x1_0000_0000
    ensures r.Some? ==> r.value.checksum == FileCrc32(read.value, crc32)
  {
    match read
    case None => None
    case Some(data) =>
      if |data| > 0 then
        Some(ImageInfo(path, "application/octet-stream", data, FileCrc32(data, crc32), |data|))
      else None
  }

  /** The part of the apply-upload answer the uploader keeps. */
  datatype UploadImageInfo = UploadImageInfo(host: string, uri: string, auth: string)

  /** `get_upload_url()`. */
  function UploadUrl(info: UploadImageInfo): (r: string)
    ensures StartsWith(r, "https://")
  {
    "https://" + info.host + "/" + info.uri
  }

  /** The upload URL gives back its host and store URI: after the scheme, the
      first `/` separates them, as long as the host holds no `/`. */
  lemma {:induction false} UploadUrlParts(info: UploadImageInfo)
    requires '/' !in info.host
    ensures SplitFirst(UploadUrl(info)[8..], '/') == (info.host, info.uri)
  {
    assert UploadUrl(info)[8..] == info.host + ['/'] + info.uri;
    SplitFirstAt(info.host, '/', info.uri);
  }

  // --------------------------------------------------------------- random_str

  /** The 36-character population `random_str` samples from: the letters from
      `z` down to `a`, then the digits `0` to `9`. */
  function Population(): (r: string)
    ensures |r| == 36
    ensures forall i :: 0 <= i < 26 ==> r[i] == ('z' as int - i) as char
    ensures forall i :: 26 <= i < 36 ==> r[i] == ('0' as int + i - 26) as char
  {
    seq(26, i requires 0 <= i < 26 => ('z' as int - i) as char) +
    seq(10, i requires 0 <= i < 10 => ('0' as int + i) as char)
  }

  /** The population is the literal written in the source. */
  lemma {:induction false} PopulationLiteral()
    ensures Population() == "zyxwvutsrqponmlkjihgfedcba0123456789"
  {
  }

  /** The population's characters are distinct, and they are exactly the
      lower-case ASCII letters and the digits. */
  lemma {:induction false} PopulationFacts()
    ensures Distinct(Population())
    ensures forall c :: c in Population() <==> ('a' <= c <= 'z' || '0' <= c <= '9')
  {
    var pop := Population();
    forall c | 'a' <= c <= 'z' || '0' <= c <= '9' ensures c in pop {
      if c <= '9' {
        assert pop[c as int - '0' as int + 26] == c;
      } else {
        assert pop['z' as int - c as int] == c;
      }
    }
  }

  predicate Distinct(s: string) {
    forall i, j :: 0 <= i < j < |s| ==> s[i] != s[j]
  }

  /** `random.sample(pool, n)` for `0 <= n <= |pool|`: each draw `rng(step)`
      selects one of the characters not yet taken. */
  function Sample(pool: string, n: nat, rng: nat -> nat, step: nat): (r: string)
    requires n <= |pool|
    ensures |r| == n
    ensures forall c :: c in r ==> c in pool
    ensures Distinct(pool) ==> Distinct(r)
    decreases n
  {
    if n == 0 then ""
    else
      var k := rng(step) % |pool|;
      var rest := pool[..k] + pool[k + 1..];
      var tail := Sample(rest, n - 1, rng, step + 1);
      if Distinct(pool) then
        assert pool[k] !in rest;
        assert Distinct(rest) by {
          forall i, j | 0 <= i < j < |rest| ensures rest[i] != rest[j] {
            var i' := if i < k then i else i + 1;
            var j' := if j < k then j else j + 1;
            assert rest[i] == pool[i'] && rest[j] == pool[j'];
          }
        }
        [pool[k]] + tail
      else
        [pool[k]] + tail
  }

  /** `random_str(n)`: `n` distinct characters of the population in random
      order; `random.sample` rejects a negative `n` or one above 36 with a
      ValueError. */
  function RandomStr(n: int, rng: nat -> nat): (r: Result<string, Error>)
    ensures r.Ok? <==> 0 <= n <= 36
    ensures r.Err? ==> r.error.ValueError?
    ensures r.Ok? ==> |r.value| == n && Distinct(r.value)
    ensures r.Ok? ==> forall c :: c in r.value ==> 'a' <= c <= 'z' || '0' <= c <= '9'
  {
    if n < 0 || n > 36 then Err(ValueError("Sample larger than population or is negative"))
    else
      PopulationFacts();
      Ok(Sample(Population(), n, rng, 0))
  }
}
