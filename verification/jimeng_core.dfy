/**
 The transport layer of the image-generation client: the constants it sends,
 the helpers that build tokens, cookies and identifiers, the signed request
 headers and parameters, and the decoding of the JSON envelope every answer
 comes in. Hashing, decompression, text decoding, JSON parsing, the clock and
 the random source are parameters.
 */
module JimengCore {
  import opened Wrappers
  import opened Text
  import opened Numerals
  import opened OrderedDict
  import opened JsonValue
  import opened JimengErrors

  const DefaultAssistantId: string := "513695"
  const VersionCode: string := "5.8.0"
  const PlatformCode: string := "7"
  const DraftVersion: string := "3.0.2"
  const Origin: string := "https://jimeng.jianying.com"

  /** The browser-like headers every request starts from, in declaration order. */
  const FakeHeaders: Dict<string> := [
    ("Accept", "application/json, text/plain, */*"),
    ("Accept-Encoding", "gzip, deflate, br, zstd"),
    ("Accept-language", "zh-CN,zh;q=0.9"),
    ("Cache-control", "no-cache"),
    ("Last-event-id", "undefined"),
    ("Appid", DefaultAssistantId),
    ("Appvr", VersionCode),
    ("Origin", Origin),
    ("Pragma", "no-cache"),
    ("Priority", "u=1, i"),
    ("Referer", Origin),
    ("Pf", PlatformCode),
    ("Sec-Ch-Ua", "\"Google Chrome\";v=\"131\", \"Chromium\";v=\"131\", \"Not_A Brand\";v=\"24\""),
    ("Sec-Ch-Ua-Mobile", "?0"),
    ("Sec-Ch-Ua-Platform", "\"Windows\""),
    ("Sec-Fetch-Dest", "empty"),
    ("Sec-Fetch-Mode", "cors"),
    ("Sec-Fetch-Site", "same-origin"),
    ("User-Agent", "Mozilla/5.0 (Windows NT 10.0; Win64; x64) AppleWebKit/537.36 (KHTML, like Gecko) Chrome/131.0.0.0 Safari/537.36")
  ]

  // ---------------------------------------------------------------------------
  // default_to
  // ---------------------------------------------------------------------------

  /** `default_value if value is None else value`. */
  function DefaultTo(value: Value, default: Value): (r: Value)
    ensures r == Null ==> value == Null && default == Null
    ensures value != Null ==> r == value
  {
    if value == Null then default else value
  }

  /** Defaulting twice with the same default is defaulting once, and a value
      that is present is a fixed point. */
  lemma {:induction false} DefaultToIdempotent(value: Value, default: Value)
    ensures DefaultTo(DefaultTo(value, default), default) == DefaultTo(value, default)
    ensures DefaultTo(value, Null) == value
  {
  }

  // ---------------------------------------------------------------------------
  // token_split
  // ---------------------------------------------------------------------------

  /** `[t.strip() for t in parts if t.strip()]`. */
  function StripNonEmpty(parts: seq<string>): (r: seq<string>)
    ensures |r| <= |parts|
    ensures forall i :: 0 <= i < |r| ==> r[i] != "" && Trimmed(r[i])
  {
    if |parts| == 0 then []
    else
      var t := Strip(parts[0]);
      if t == "" then StripNonEmpty(parts[1..]) else [t] + StripNonEmpty(parts[1..])
  }

  /** Stripping keeps a character out of the pieces that never contained it. */
  lemma {:induction false} StripNonEmptyAvoids(parts: seq<string>, c: char)
    requires forall i :: 0 <= i < |parts| ==> c !in parts[i]
    ensures forall i :: 0 <= i < |StripNonEmpty(parts)| ==> c !in StripNonEmpty(parts)[i]
  {
    if |parts| > 0 {
      StripNonEmptyAvoids(parts[1..], c);
    }
  }

  /** Pieces are kept in their original order: the result for a concatenation
      is the concatenation of the results. */
  lemma {:induction false} StripNonEmptyConcat(a: seq<string>, b: seq<string>)
    ensures StripNonEmpty(a + b) == StripNonEmpty(a) + StripNonEmpty(b)
  {
    if |a| > 0 {
      assert a + b == [a[0]] + (a[1..] + b);
      assert a == [a[0]] + a[1..];
      StripNonEmptyCons(a[0], a[1..] + b);
      StripNonEmptyCons(a[0], a[1..]);
      StripNonEmptyConcat(a[1..], b);
      var head := StripHead(a[0]);
      assert head + (StripNonEmpty(a[1..]) + StripNonEmpty(b)) == (head + StripNonEmpty(a[1..])) + StripNonEmpty(b);
    } else {
      assert a + b == b;
    }
  }

  /** The kept part of one piece: its stripped text, unless that is empty. */
  function StripHead(x: string): seq<string> {
    if Strip(x) == "" then [] else [Strip(x)]
  }

  lemma {:induction false} StripNonEmptyCons(x: string, rest: seq<string>)
    ensures StripNonEmpty([x] + rest) == StripHead(x) + StripNonEmpty(rest)
  {
    assert ([x] + rest)[0] == x && ([x] + rest)[1..] == rest;
  }

  /** Pieces that are already non-empty and trimmed pass through unchanged. */
  lemma {:induction false} StripNonEmptyKeeps(parts: seq<string>)
    requires forall i :: 0 <= i < |parts| ==> parts[i] != "" && Trimmed(parts[i])
    ensures StripNonEmpty(parts) == parts
  {
    if |parts| > 0 {
      StripNonEmptyKeeps(parts[1..]);
    }
  }

  /** `token_split(auth)`: no tokens for a missing or empty header; otherwise
      every "Bearer" is removed, the rest is trimmed, split on commas, and the
      trimmed non-empty pieces are kept. */
  function TokenSplit(auth: Option<string>): (r: seq<string>)
    ensures auth == None || auth == Some("") ==> r == []
    ensures forall i :: 0 <= i < |r| ==> r[i] != "" && Trimmed(r[i]) && ',' !in r[i]
  {
    if auth.None? || auth.value == "" then []
    else
      var pieces := Split(Strip(ReplaceAll(auth.value, "Bearer", "")), ',');
      StripNonEmptyAvoids(pieces, ',');
      StripNonEmpty(pieces)
  }

  /** A token that survives a round trip through an Authorization header. */
  predicate WellFormedToken(t: string) {
    t != "" && Trimmed(t) && ',' !in t && NoOccurrence(t, "Bearer")
  }

  /** Removing "Bearer" from `"Bearer " + j` leaves `" " + j` when `j` has none. */
  lemma {:induction false} BearerPrefixRemoved(j: string)
    requires ReplaceAll(j, "Bearer", "") == j
    ensures ReplaceAll("Bearer " + j, "Bearer", "") == " " + j
  {
    var header := "Bearer " + j;
    assert StartsWith(header, "Bearer") by {
      assert header[..6] == "Bearer";
    }
    assert header[6..] == " " + j;
    assert !StartsWith(" " + j, "Bearer") by {
      assert (" " + j)[0] == ' ';
    }
    assert (" " + j)[1..] == j;
  }

  /** `token_split` recovers the tokens of `"Bearer " + ",".join(ts)`. */
  lemma {:induction false} TokenSplitRoundTrip(ts: seq<string>)
    requires forall i :: 0 <= i < |ts| ==> WellFormedToken(ts[i])
    ensures TokenSplit(Some("Bearer " + Join(ts, ","))) == ts
  {
    if |ts| == 0 {
      assert "Bearer " + Join(ts, ",") == "Bearer ";
      TokenSplitBearerOnly();
    } else {
      var j := Join(ts, ",");
      assert ReplaceAll("Bearer " + j, "Bearer", "") == " " + j by {
        ReplaceAbsentInJoin(ts, ',', "Bearer", "");
        BearerPrefixRemoved(j);
      }
      assert Strip(" " + j) == j by {
        JoinTrimmed(ts, ",");
        StripLeadingSpace(' ', j);
      }
      TokenSplitNonEmpty(ts);
    }
  }

  /** A header holding only the scheme has no tokens. */
  lemma {:induction false} TokenSplitBearerOnly()
    ensures TokenSplit(Some("Bearer ")) == []
  {
    assert Strip(ReplaceAll("Bearer ", "Bearer", "")) == "" by {
      BearerPrefixRemoved("");
      assert "Bearer " + "" == "Bearer " && " " + "" == " ";
      assert IsSpace(" "[0]);
    }
    assert StripNonEmpty(Split("", ',')) == [] by {
      assert Split("", ',') == [""];
      assert Strip("") == "";
    }
  }

  /** The last steps of the round trip: splitting the trimmed join. */
  lemma {:induction false} TokenSplitNonEmpty(ts: seq<string>)
    requires forall i :: 0 <= i < |ts| ==> WellFormedToken(ts[i])
    requires |ts| > 0
    requires ReplaceAll("Bearer " + Join(ts, ","), "Bearer", "") == " " + Join(ts, ",")
    requires Strip(" " + Join(ts, ",")) == Join(ts, ",")
    ensures TokenSplit(Some("Bearer " + Join(ts, ","))) == ts
  {
    assert Split(Join(ts, ","), ',') == ts by {
      SplitJoin(ts, ',');
    }
    StripNonEmptyKeeps(ts);
  }

  // ---------------------------------------------------------------------------
  // acquire_token and generate_cookie
  // ---------------------------------------------------------------------------

  /** The access token is the refresh token: there is no refresh step. */
  function AcquireToken(refreshToken: string): string {
    refreshToken
  }

  const CookieNames: seq<string> := ["sessionid", "sessionid_ss", "sid_tt", "uid_tt", "uid_tt_ss"]

  /** `generate_cookie(token)`: five session cookies all carrying the token. */
  function GenerateCookie(token: string): (r: string)
    ensures |r| == |"sessionid=; sessionid_ss=; sid_tt=; uid_tt=; uid_tt_ss="| + 5 * |token|
  {
    "sessionid=" + token + "; sessionid_ss=" + token + "; sid_tt=" + token
      + "; uid_tt=" + token + "; uid_tt_ss=" + token
  }

  /** One `name=value` pair of a cookie string; a single leading space (the
      space after `;`) is not part of the name. */
  function CookiePair(piece: string): (string, string) {
    var p := if |piece| > 0 && piece[0] == ' ' then piece[1..] else piece;
    SplitFirst(p, '=')
  }

  function CookiePairsOf(pieces: seq<string>): (r: seq<(string, string)>)
    ensures |r| == |pieces|
    ensures forall i :: 0 <= i < |r| ==> r[i] == CookiePair(pieces[i])
  {
    if |pieces| == 0 then [] else [CookiePair(pieces[0])] + CookiePairsOf(pieces[1..])
  }

  /** A reader of `cookie-string = cookie-pair *( ";" SP cookie-pair )`, the
      request-header form of section 4.2.1 of RFC 6265. */
  function CookiePairs(cookie: string): seq<(string, string)> {
    CookiePairsOf(Split(cookie, ';'))
  }

  /** The `;`-separated pieces of `generate_cookie(t)`. */
  function CookiePieces(t: string): (r: seq<string>)
    ensures |r| == 5
  {
    ["sessionid=" + t, " sessionid_ss=" + t, " sid_tt=" + t, " uid_tt=" + t, " uid_tt_ss=" + t]
  }

  /** `generate_cookie(t)` is its five pieces joined with `;`. */
  lemma {:induction false} CookieJoin(t: string)
    ensures Join(CookiePieces(t), ";") == GenerateCookie(t)
  {
    assert "; uid_tt_ss=" == "; " + "uid_tt_ss" + "=";
    assert "; uid_tt=" == "; " + "uid_tt" + "=";
    assert "; sid_tt=" == "; " + "sid_tt" + "=";
    assert "; sessionid_ss=" == "; " + "sessionid_ss" + "=";
    assert " uid_tt_ss=" == " " + "uid_tt_ss" + "=";
    assert " uid_tt=" == " " + "uid_tt" + "=";
    assert " sid_tt=" == " " + "sid_tt" + "=";
    assert " sessionid_ss=" == " " + "sessionid_ss" + "=";
    var j4 := " uid_tt_ss=" + t;
    var j3 := " uid_tt=" + t + ";" + j4;
    var j2 := " sid_tt=" + t + ";" + j3;
    var j1 := " sessionid_ss=" + t + ";" + j2;
    var l1 := "sessionid=" + t;
    var l2 := l1 + "; sessionid_ss=" + t;
    var l3 := l2 + "; sid_tt=" + t;
    var l4 := l3 + "; uid_tt=" + t;
    CookieLastPair(l4, "uid_tt_ss", t);
    CookieNextPair(l3, "uid_tt", t, j4);
    CookieNextPair(l2, "sid_tt", t, j3);
    CookieNextPair(l1, "sessionid_ss", t, j2);
    Join5(l1, " sessionid_ss=" + t, " sid_tt=" + t, " uid_tt=" + t, j4, ";");
  }

  lemma {:induction false} CookieNextPair(l: string, name: string, t: string, rest: string)
    ensures l + ("; " + name + "=") + t + ";" + rest == l + ";" + (" " + name + "=" + t + ";" + rest)
  {
  }

  lemma {:induction false} CookieLastPair(l: string, name: string, t: string)
    ensures l + ("; " + name + "=") + t == l + ";" + (" " + name + "=" + t)
  {
  }

  /** No piece contains `;` unless the token does. */
  lemma {:induction false} CookiePiecesSeparated(t: string)
    requires ';' !in t
    ensures forall i :: 0 <= i < 5 ==> ';' !in CookiePieces(t)[i]
  {
  }

  /** A piece `name=value`, with or without the space after `;`, reads back as
      its name and value when the name has no `=` and does not start with a space. */
  lemma {:induction false} CookiePairAt(piece: string, name: string, value: string)
    requires '=' !in name && |name| > 0 && name[0] != ' '
    requires piece == name + "=" + value || piece == " " + name + "=" + value
    ensures CookiePair(piece) == (name, value)
  {
    SplitFirstAt(name, '=', value);
    assert (" " + name + "=" + value)[1..] == name + "=" + value;
  }

  /** Each piece of the cookie reads back as its cookie name and the token. */
  lemma {:induction false} CookiePieceReads(t: string, i: nat)
    requires i < 5
    ensures CookiePair(CookiePieces(t)[i]) == (CookieNames[i], t)
  {
    var p := CookiePieces(t);
    if i == 0 {
      CookiePairAt(p[0], "sessionid", t);
    } else if i == 1 {
      CookiePairAt(p[1], "sessionid_ss", t);
    } else if i == 2 {
      CookiePairAt(p[2], "sid_tt", t);
    } else if i == 3 {
      CookiePairAt(p[3], "uid_tt", t);
    } else {
      CookiePairAt(p[4], "uid_tt_ss", t);
    }
  }

  /** The cookie built from a refresh token reads back as the five session
      cookies, in order, each holding that token unchanged, provided the token
      does not contain the pair separator. */
  lemma {:induction false} CookieRoundTrip(refreshToken: string)
    requires ';' !in refreshToken
    ensures CookiePairs(GenerateCookie(AcquireToken(refreshToken))) ==
      [("sessionid", refreshToken), ("sessionid_ss", refreshToken), ("sid_tt", refreshToken),
       ("uid_tt", refreshToken), ("uid_tt_ss", refreshToken)]
  {
    var t := AcquireToken(refreshToken);
    var p := CookiePieces(t);
    assert Split(GenerateCookie(t), ';') == p by {
      CookieJoin(t);
      CookiePiecesSeparated(t);
      SplitJoin(p, ';');
    }
    var r := CookiePairsOf(p);
    forall i | 0 <= i < 5 ensures r[i] == (CookieNames[i], t) {
      CookiePieceReads(t, i);
    }
    FivePairs(r, CookieNames, t);
  }

  /** Five pairs, the i-th being `(names[i], t)`, listed out. */
  lemma {:induction false} FivePairs(r: seq<(string, string)>, names: seq<string>, t: string)
    requires |r| == 5 && |names| == 5
    requires forall i :: 0 <= i < 5 ==> r[i] == (names[i], t)
    ensures r == [(names[0], t), (names[1], t), (names[2], t), (names[3], t), (names[4], t)]
  {
  }

  // ---------------------------------------------------------------------------
  // generate_uuid
  // ---------------------------------------------------------------------------

  /** The version-4 stamp of `uuid.uuid4()` on sixteen random bytes: the high
      nibble of byte 6 becomes 4 and the top two bits of byte 8 become 10. */
  function StampVersion4(random: seq<byte>): (r: seq<byte>)
    requires |random| == 16
    ensures |r| == 16
    ensures forall i :: 0 <= i < 16 && i != 6 && i != 8 ==> r[i] == random[i]
    ensures r[6] as int / 16 == 4 && r[6] as int % 16 == random[6] as int % 16
    ensures r[8] as int / 64 == 2 && r[8] as int % 64 == random[8] as int % 64
  {
    random[6 := (random[6] as int % 16 + 0x40) as byte][8 := (random[8] as int % 64 + 0x80) as byte]
  }

  /** `str(uuid)`: the 32 hex digits of the 128-bit value, grouped 8-4-4-4-12. */
  function UuidText(bs: seq<byte>): (r: string)
    requires |bs| == 16
    ensures |r| == 36
  {
    var h := HexBytes(bs);
    h[..8] + "-" + h[8..12] + "-" + h[12..16] + "-" + h[16..20] + "-" + h[20..]
  }

  /** `generate_uuid(with_hyphen)` on the sixteen random bytes `uuid4` draws. */
  function GenerateUuid(random: seq<byte>, withHyphen: bool): (r: string)
    requires |random| == 16
  {
    var text := UuidText(StampVersion4(random));
    if withHyphen then text else ReplaceAll(text, "-", "")
  }

  /** The hex digits that carry the version and the variant. */
  lemma {:induction false} StampedDigits(random: seq<byte>)
    requires |random| == 16
    ensures var h := HexBytes(StampVersion4(random));
      h[12] == '4' && h[16] in "89ab"
  {
    var b := StampVersion4(random);
    HexBytesAt(b, 6);
    HexBytesAt(b, 8);
    assert 8 <= b[8] as nat / 16 < 12;
  }

  /** The five groups of `str(uuid)`. */
  function UuidGroups(h: string): (g: seq<string>)
    requires |h| == 32
    ensures |g| == 5 && Concat(g) == h
  {
    var g := [h[..8], h[8..12], h[12..16], h[16..20], h[20..]];
    assert Concat(g[4..]) == h[20..];
    assert Concat(g[3..]) == h[16..20] + h[20..] == h[16..];
    assert Concat(g[2..]) == h[12..16] + h[16..] == h[12..];
    assert Concat(g[1..]) == h[8..12] + h[12..] == h[8..];
    assert Concat(g) == h[..8] + h[8..] == h;
    g
  }

  lemma {:induction false} HexHasNoHyphen(s: string)
    requires AllHex(s)
    ensures '-' !in s
  {
  }

  /** `str(uuid)` is the hex digits joined group by group with hyphens. */
  lemma {:induction false} UuidTextGroups(bs: seq<byte>)
    requires |bs| == 16
    ensures UuidText(bs) == Join(UuidGroups(HexBytes(bs)), "-")
    ensures forall i :: 0 <= i < 5 ==> '-' !in UuidGroups(HexBytes(bs))[i]
  {
    var h := HexBytes(bs);
    var g := UuidGroups(h);
    assert g == [h[..8], h[8..12], h[12..16], h[16..20], h[20..]];
    Join5(g[0], g[1], g[2], g[3], g[4], "-");
    FiveFieldsFlat(g[0], g[1], g[2], g[3], g[4], "-");
    forall i | 0 <= i < 5 ensures '-' !in g[i] {
      HexHasNoHyphen(g[i]);
    }
  }

  lemma {:induction false} FiveFieldsFlat(a: string, b: string, c: string, d: string, e: string, sep: string)
    ensures a + sep + (b + sep + (c + sep + (d + sep + e))) == a + sep + b + sep + c + sep + d + sep + e
  {
  }

  /** With hyphens: 36 characters, hyphens at positions 8, 13, 18 and 23, the
      version digit 4 at position 14 and a variant digit 8, 9, a or b at 19. */
  lemma {:induction false} UuidHyphenLayout(random: seq<byte>)
    requires |random| == 16
    ensures var r := GenerateUuid(random, true);
      |r| == 36 && r[8] == '-' && r[13] == '-' && r[18] == '-' && r[23] == '-' && r[14] == '4'
      && r[19] in "89ab"
  {
    StampedDigits(random);
  }

  /** Without hyphens the identifier is the plain hex rendering of the stamped
      bytes, so it parses back to them: 32 lower-case hex digits, version digit
      4 at position 12, variant digit 8, 9, a or b at position 16, and every
      random byte other than 6 and 8 preserved. */
  lemma {:induction false} UuidWithoutHyphens(random: seq<byte>)
    requires |random| == 16
    ensures var r := GenerateUuid(random, false);
      r == HexBytes(StampVersion4(random))
      && |r| == 32 && AllHex(r) && r[12] == '4' && r[16] in "89ab"
      && ParseHexBytes(r) == StampVersion4(random)
  {
    var b := StampVersion4(random);
    UuidTextGroups(b);
    RemoveSeparator(UuidGroups(HexBytes(b)), '-');
    StampedDigits(random);
    ParseHexBytesInverse(b);
  }

  // ---------------------------------------------------------------------------
  // The device signature
  // ---------------------------------------------------------------------------

  /** The text whose MD5 digest is sent as the `Sign` header. */
  function SignPreimage(uri: string, deviceTime: nat): string {
    "9e2c|" + LastN(uri, 7) + "|" + PlatformCode + "|" + VersionCode + "|" + Decimal(deviceTime) + "||11ac"
  }

  lemma {:induction false} SignPreimageJoin(tail: string, d: string)
    ensures Join(["9e2c", tail, "7", "5.8.0", d, "", "11ac"], "|")
      == "9e2c|" + tail + "|" + PlatformCode + "|" + VersionCode + "|" + d + "||11ac"
  {
    var f := ["9e2c", tail, "7", "5.8.0", d, "", "11ac"];
    assert f[1..] == [tail, "7", "5.8.0", d, "", "11ac"];
    Join6(tail, "7", "5.8.0", d, "", "11ac", "|");
    SevenFieldsFlat("9e2c", tail, "7", "5.8.0", d, "11ac", "|");
    assert "9e2c" + "|" == "9e2c|" && "|" + "|" + "11ac" == "||11ac";
  }

  lemma {:induction false} SevenFieldsFlat(x: string, t: string, p: string, v: string, d: string, y: string, s: string)
    ensures x + s + (t + s + (p + s + (v + s + (d + s + ("" + s + y)))))
         == (x + s) + t + s + p + s + v + s + d + (s + s + y)
  {
    var tail := d + s + ("" + s + y);
    assert tail == d + (s + s + y) by { assert "" + s == s; }
    assert v + s + tail == v + s + d + (s + s + y);
    assert p + s + (v + s + tail) == p + s + v + s + d + (s + s + y);
    assert t + s + (p + s + (v + s + tail)) == t + s + p + s + v + s + d + (s + s + y);
  }

  /** The preimage has seven `|`-separated fields: a fixed salt, the last seven
      characters of the uri (all of it when shorter), the platform code, the
      version code, the device time in seconds, an empty field and a fixed
      suffix. */
  lemma {:induction false} SignPreimageFields(uri: string, deviceTime: nat)
    requires '|' !in LastN(uri, 7)
    ensures Split(SignPreimage(uri, deviceTime), '|') ==
      ["9e2c", LastN(uri, 7), "7", "5.8.0", Decimal(deviceTime), "", "11ac"]
    ensures |uri| >= 7 ==> LastN(uri, 7) == uri[|uri| - 7..]
    ensures |uri| < 7 ==> LastN(uri, 7) == uri
  {
    var d := Decimal(deviceTime);
    var fields := ["9e2c", LastN(uri, 7), "7", "5.8.0", d, "", "11ac"];
    SignPreimageJoin(LastN(uri, 7), d);
    DecimalChars(deviceTime);
    SplitJoin(fields, '|');
  }

  // ---------------------------------------------------------------------------
  // Parameters and headers of `request`
  // ---------------------------------------------------------------------------

  /** The query parameters every request starts from. */
  function DefaultParams(webId: int): Dict<Value> {
    [("aid", Str(DefaultAssistantId)), ("device_platform", Str("web")), ("region", Str("CN")),
     ("web_id", Int(webId))]
  }

  /** `_params = {defaults}; if params: _params.update(params)`: the caller's
      entries override, every other default is kept, and the defaults come first. */
  function RequestParams(webId: int, params: Option<Dict<Value>>): (r: Dict<Value>)
    requires params.Some? ==> DistinctKeys(params.value)
    ensures forall x :: Lookup(r, x) ==
              if params.Some? && x in KeySet(params.value) then Lookup(params.value, x)
              else Lookup(DefaultParams(webId), x)
    ensures |r| >= 4 && r[0].0 == "aid" && r[1].0 == "device_platform" && r[2].0 == "region" && r[3].0 == "web_id"
    ensures DistinctKeys(r)
  {
    DefaultParamsShape(webId);
    ParamsOver(DefaultParams(webId), params)
  }

  lemma {:induction false} DefaultParamsShape(webId: int)
    ensures var d := DefaultParams(webId);
      |d| == 4 && d[0].0 == "aid" && d[1].0 == "device_platform" && d[2].0 == "region" && d[3].0 == "web_id"
      && DistinctKeys(d)
  {
    var d := DefaultParams(webId);
    assert d[2].0[0] == 'r' && d[3].0[0] == 'w';
    assert forall i :: 0 <= i < 4 ==> |d[i].0| > 0 && d[i].0[0] == "adrw"[i];
  }

  /** The caller's parameters written over `defaults`. */
  function ParamsOver(defaults: Dict<Value>, params: Option<Dict<Value>>): (r: Dict<Value>)
    requires params.Some? ==> DistinctKeys(params.value)
    ensures forall x :: Lookup(r, x) ==
              if params.Some? && x in KeySet(params.value) then Lookup(params.value, x)
              else Lookup(defaults, x)
    ensures |r| >= |defaults| && forall i :: 0 <= i < |defaults| ==> r[i].0 == defaults[i].0
    ensures DistinctKeys(defaults) ==> DistinctKeys(r)
  {
    if params.Some? && |params.value| > 0 then Update(defaults, params.value) else defaults
  }

  /** A default parameter the caller does not mention keeps its default value. */
  lemma {:induction false} RequestParamsDefaults(webId: int, params: Option<Dict<Value>>)
    requires params.Some? ==> DistinctKeys(params.value)
    ensures var r := RequestParams(webId, params);
      var given := if params.Some? then KeySet(params.value) else {};
      ("aid" !in given ==> Lookup(r, "aid") == Some(Str("513695")))
      && ("device_platform" !in given ==> Lookup(r, "device_platform") == Some(Str("web")))
      && ("region" !in given ==> Lookup(r, "region") == Some(Str("CN")))
      && ("web_id" !in given ==> Lookup(r, "web_id") == Some(Int(webId)))
  {
    var d := DefaultParams(webId);
    LookupFirst(d, 0, "aid");
    LookupFirst(d, 1, "device_platform");
    LookupFirst(d, 2, "region");
    LookupFirst(d, 3, "web_id");
  }

  /** `{**FAKE_HEADERS, "Cookie": …, "Device-Time": …, "Sign": …, "Sign-Ver": "1"}`. */
  function BaseHeaders(cookie: string, deviceTime: nat, sign: string): Dict<string> {
    SignedOver(FakeHeaders, cookie, Decimal(deviceTime), sign)
  }

  /** The four computed headers written over the headers `d`, in this order. */
  function SignedOver(d: Dict<string>, cookie: string, time: string, sign: string): Dict<string> {
    Put(Put(Put(Put(d, "Cookie", cookie), "Device-Time", time), "Sign", sign), "Sign-Ver", "1")
  }

  /** `_headers = {base}; if headers: _headers.update(headers)`. */
  function RequestHeaders(cookie: string, deviceTime: nat, sign: string, headers: Option<Dict<string>>): (r: Dict<string>)
    requires headers.Some? ==> DistinctKeys(headers.value)
    ensures forall x :: Lookup(r, x) ==
              if headers.Some? && x in KeySet(headers.value) then Lookup(headers.value, x)
              else Lookup(BaseHeaders(cookie, deviceTime, sign), x)
    ensures |r| >= |FakeHeaders| && forall i :: 0 <= i < |FakeHeaders| ==> r[i].0 == FakeHeaders[i].0
  {
    HeadersOver(FakeHeaders, cookie, Decimal(deviceTime), sign, headers)
  }

  /** The caller's headers written over the signed headers built on `d`. */
  function HeadersOver(d: Dict<string>, cookie: string, time: string, sign: string, headers: Option<Dict<string>>): (r: Dict<string>)
    requires headers.Some? ==> DistinctKeys(headers.value)
    ensures forall x :: Lookup(r, x) ==
              if headers.Some? && x in KeySet(headers.value) then Lookup(headers.value, x)
              else Lookup(SignedOver(d, cookie, time, sign), x)
    ensures |r| >= |d| && forall i :: 0 <= i < |d| ==> r[i].0 == d[i].0
  {
    var base := SignedOver(d, cookie, time, sign);
    if headers.Some? && |headers.value| > 0 then Update(base, headers.value) else base
  }

  /** The four computed headers carry the cookie, the device time, the signature
      and signature version 1, unless the caller overrides them; the identifying
      fake headers carry the assistant id, version and platform codes, unless
      overridden. */
  lemma {:induction false} RequestHeadersDefaults(cookie: string, deviceTime: nat, sign: string, headers: Option<Dict<string>>)
    requires headers.Some? ==> DistinctKeys(headers.value)
    ensures var r := RequestHeaders(cookie, deviceTime, sign, headers);
      var given := if headers.Some? then KeySet(headers.value) else {};
      ("Cookie" !in given ==> Lookup(r, "Cookie") == Some(cookie))
      && ("Device-Time" !in given ==> Lookup(r, "Device-Time") == Some(Decimal(deviceTime)))
      && ("Sign" !in given ==> Lookup(r, "Sign") == Some(sign))
      && ("Sign-Ver" !in given ==> Lookup(r, "Sign-Ver") == Some("1"))
      && ("Appid" !in given ==> Lookup(r, "Appid") == Some(DefaultAssistantId))
      && ("Appvr" !in given ==> Lookup(r, "Appvr") == Some(VersionCode))
      && ("Pf" !in given ==> Lookup(r, "Pf") == Some(PlatformCode))
  {
    BaseHeadersDefaults(cookie, deviceTime, sign);
  }

  /** The base headers before the caller's: the four computed ones and the
      identifying fake ones. */
  lemma {:induction false} BaseHeadersDefaults(cookie: string, deviceTime: nat, sign: string)
    ensures var b := BaseHeaders(cookie, deviceTime, sign);
      Lookup(b, "Cookie") == Some(cookie) && Lookup(b, "Device-Time") == Some(Decimal(deviceTime))
      && Lookup(b, "Sign") == Some(sign) && Lookup(b, "Sign-Ver") == Some("1")
      && Lookup(b, "Appid") == Some(DefaultAssistantId) && Lookup(b, "Appvr") == Some(VersionCode)
      && Lookup(b, "Pf") == Some(PlatformCode)
  {
    FakeHeaderValues();
    SignedOverReads(FakeHeaders, cookie, Decimal(deviceTime), sign);
    SignedOverKeeps(FakeHeaders, cookie, Decimal(deviceTime), sign, "Appid");
    SignedOverKeeps(FakeHeaders, cookie, Decimal(deviceTime), sign, "Appvr");
    SignedOverKeeps(FakeHeaders, cookie, Decimal(deviceTime), sign, "Pf");
  }

  /** The four computed headers read back their values. */
  lemma {:induction false} SignedOverReads(d: Dict<string>, cookie: string, time: string, sign: string)
    ensures var b := SignedOver(d, cookie, time, sign);
      Lookup(b, "Cookie") == Some(cookie) && Lookup(b, "Device-Time") == Some(time)
      && Lookup(b, "Sign") == Some(sign) && Lookup(b, "Sign-Ver") == Some("1")
  {
    PutFourLookups(d, "Cookie", cookie, "Device-Time", time, "Sign", sign, "Sign-Ver", "1");
  }

  /** A header of another name than the four computed ones keeps its value. */
  lemma {:induction false} SignedOverKeeps(d: Dict<string>, cookie: string, time: string, sign: string, x: string)
    requires |x| !in {4, 6, 8, 11}
    ensures Lookup(SignedOver(d, cookie, time, sign), x) == Lookup(d, x)
  {
    PutFourKeeps(d, "Cookie", cookie, "Device-Time", time, "Sign", sign, "Sign-Ver", "1", x);
  }

  /** Four successive `Put`s: each key reads back its value unless a later put overwrites it. */
  lemma {:induction false} PutFourLookups<V>(d: Dict<V>, k1: string, v1: V, k2: string, v2: V, k3: string, v3: V, k4: string, v4: V)
    ensures var b := Put(Put(Put(Put(d, k1, v1), k2, v2), k3, v3), k4, v4);
      Lookup(b, k4) == Some(v4)
      && (k3 != k4 ==> Lookup(b, k3) == Some(v3))
      && (k2 != k3 && k2 != k4 ==> Lookup(b, k2) == Some(v2))
      && (k1 != k2 && k1 != k3 && k1 != k4 ==> Lookup(b, k1) == Some(v1))
  {
  }

  /** Four successive `Put`s leave every other key as it was. */
  lemma {:induction false} PutFourKeeps<V>(d: Dict<V>, k1: string, v1: V, k2: string, v2: V, k3: string, v3: V, k4: string, v4: V, x: string)
    requires x != k1 && x != k2 && x != k3 && x != k4
    ensures Lookup(Put(Put(Put(Put(d, k1, v1), k2, v2), k3, v3), k4, v4), x) == Lookup(d, x)
  {
  }

  /** The fake headers that identify the client: assistant id, version and platform. */
  lemma {:induction false} FakeHeaderValues()
    ensures Lookup(FakeHeaders, "Appid") == Some(DefaultAssistantId)
    ensures Lookup(FakeHeaders, "Appvr") == Some(VersionCode)
    ensures Lookup(FakeHeaders, "Pf") == Some(PlatformCode)
  {
    FakeHeaderAppid();
    FakeHeaderAppvr();
    FakeHeaderPf();
  }

  lemma {:induction false} FakeHeaderAppid()
    ensures Lookup(FakeHeaders, "Appid") == Some(DefaultAssistantId)
  {
    assert FakeHeaders[5] == ("Appid", DefaultAssistantId);
    assert forall j :: 0 <= j < 5 ==> FakeHeaders[j].0 != "Appid";
    LookupFirst(FakeHeaders, 5, "Appid");
  }

  lemma {:induction false} FakeHeaderAppvr()
    ensures Lookup(FakeHeaders, "Appvr") == Some(VersionCode)
  {
    assert FakeHeaders[6] == ("Appvr", VersionCode);
    assert forall j :: 0 <= j < 6 ==> FakeHeaders[j].0 != "Appvr";
    LookupFirst(FakeHeaders, 6, "Appvr");
  }

  lemma {:induction false} FakeHeaderPf()
    ensures Lookup(FakeHeaders, "Pf") == Some(PlatformCode)
  {
    assert FakeHeaders[11] == ("Pf", PlatformCode);
    assert forall j :: 0 <= j < 11 ==> FakeHeaders[j].0 != "Pf";
    LookupFirst(FakeHeaders, 11, "Pf");
  }

  /** What `request` hands to the HTTP library. */
  datatype Outgoing = Outgoing(verb: string, url: string, params: Dict<Value>, headers: Dict<string>, body: Option<Value>)

  /** The request-building half of `request`; `deviceTime` is the clock reading,
      `webId` the per-process random id and `md5` the digest function. */
  function Prepare(verb: string, uri: string, refreshToken: string, params: Option<Dict<Value>>,
                   data: Option<Value>, headers: Option<Dict<string>>,
                   deviceTime: nat, webId: int, md5: string -> string): (r: Outgoing)
    requires params.Some? ==> DistinctKeys(params.value)
    requires headers.Some? ==> DistinctKeys(headers.value)
    ensures r.url == Origin + uri && r.verb == AsciiLower(verb) && r.body == data
  {
    var cookie := GenerateCookie(AcquireToken(refreshToken));
    var sign := md5(SignPreimage(uri, deviceTime));
    Outgoing(AsciiLower(verb), Origin + uri, RequestParams(webId, params),
             RequestHeaders(cookie, deviceTime, sign, headers), data)
  }

  /** Without caller headers the request is signed with the digest of the
      preimage and carries the session cookie of the refresh token, and it is
      addressed to the fixed application with its default region. */
  lemma {:induction false} PrepareSigned(verb: string, uri: string, refreshToken: string, params: Option<Dict<Value>>,
                                         data: Option<Value>, deviceTime: nat, webId: int, md5: string -> string)
    requires params.Some? ==> DistinctKeys(params.value)
    ensures var r := Prepare(verb, uri, refreshToken, params, data, None, deviceTime, webId, md5);
      && Lookup(r.headers, "Sign") == Some(md5(SignPreimage(uri, deviceTime)))
      && Lookup(r.headers, "Cookie") == Some(GenerateCookie(refreshToken))
      && Lookup(r.headers, "Device-Time") == Some(Decimal(deviceTime))
      && (params.None? ==> Lookup(r.params, "aid") == Some(Str(DefaultAssistantId)))
  {
    var cookie := GenerateCookie(AcquireToken(refreshToken));
    var sign := md5(SignPreimage(uri, deviceTime));
    var r := Prepare(verb, uri, refreshToken, params, data, None, deviceTime, webId, md5);
    assert r.headers == RequestHeaders(cookie, deviceTime, sign, None);
    assert r.params == RequestParams(webId, params);
    RequestHeadersDefaults(cookie, deviceTime, sign, None);
    RequestParamsDefaults(webId, params);
  }

  // ---------------------------------------------------------------------------
  // Reading the response
  // ---------------------------------------------------------------------------

  /** The byte-level codecs the response path calls: gzip (RFC 1952), Brotli
      (RFC 7932) and UTF-8 decoding, each of which can fail. */
  datatype Codecs = Codecs(
    gunzip: seq<byte> -> Option<seq<byte>>,
    unbrotli: seq<byte> -> Option<seq<byte>>,
    utf8: seq<byte> -> Option<string>)

  /** `decompress_response`: the `Content-Encoding` header (default empty) is
      lower-cased; only `gzip` and `br` transform the body, which is then
      decoded as UTF-8. `None` stands for a raised exception. */
  function DecompressResponse(encoding: Option<string>, content: seq<byte>, codecs: Codecs): (r: Option<string>)
    ensures AsciiLower(encoding.GetOr("")) == "gzip" ==>
      r == (if codecs.gunzip(content).Some? then codecs.utf8(codecs.gunzip(content).value) else None)
    ensures AsciiLower(encoding.GetOr("")) == "br" ==>
      r == (if codecs.unbrotli(content).Some? then codecs.utf8(codecs.unbrotli(content).value) else None)
  {
    var e := AsciiLower(encoding.GetOr(""));
    var body := if e == "gzip" then codecs.gunzip(content) else if e == "br" then codecs.unbrotli(content) else Some(content);
    if body.Some? then codecs.utf8(body.value) else None
  }

  /** Any encoding other than gzip and br, in any letter case, leaves the body
      as it came, exactly as if no encoding had been declared. */
  lemma {:induction false} DecompressPassThrough(encoding: Option<string>, content: seq<byte>, codecs: Codecs)
    requires AsciiLower(encoding.GetOr("")) != "gzip" && AsciiLower(encoding.GetOr("")) != "br"
    ensures DecompressResponse(encoding, content, codecs) == codecs.utf8(content)
    ensures DecompressResponse(encoding, content, codecs) == DecompressResponse(None, content, codecs)
  {
    assert AsciiLower("") == "";
  }

  /** Only the lower-cased encoding matters: two spellings that lower-case
      alike decompress alike. */
  lemma {:induction false} DecompressCaseInsensitive(e1: string, e2: string, content: seq<byte>, codecs: Codecs)
    requires AsciiLower(e1) == AsciiLower(e2)
    ensures DecompressResponse(Some(e1), content, codecs) == DecompressResponse(Some(e2), content, codecs)
  {
  }

  /** "GZIP" and "Br" name the gzip and Brotli codecs. */
  lemma {:induction false} UpperCaseEncodings(content: seq<byte>, codecs: Codecs)
    ensures DecompressResponse(Some("GZIP"), content, codecs) == DecompressResponse(Some("gzip"), content, codecs)
    ensures DecompressResponse(Some("Br"), content, codecs) == DecompressResponse(Some("br"), content, codecs)
  {
    var g := AsciiLower("GZIP");
    assert g[0] == 'g' && g[1] == 'z' && g[2] == 'i' && g[3] == 'p';
    var g' := AsciiLower("gzip");
    assert g'[0] == 'g' && g'[1] == 'z' && g'[2] == 'i' && g'[3] == 'p';
    assert g == g';
    DecompressCaseInsensitive("GZIP", "gzip", content, codecs);
    var b := AsciiLower("Br");
    assert b[0] == 'b' && b[1] == 'r';
    var b' := AsciiLower("br");
    assert b'[0] == 'b' && b'[1] == 'r';
    assert b == b';
    DecompressCaseInsensitive("Br", "br", content, codecs);
  }

  /** What came back over the wire. */
  datatype Response = Response(encoding: Option<string>, content: seq<byte>, text: string)

  /** The text `request` parses: the decompressed body, or `response.text`
      when decompression or decoding raises. */
  function ResponseText(response: Response, codecs: Codecs): (r: string)
    ensures DecompressResponse(response.encoding, response.content, codecs).None? ==> r == response.text
  {
    var d := DecompressResponse(response.encoding, response.content, codecs);
    if d.Some? then d.value else response.text
  }

  /** The `ret` envelope of `request`, applied to the decoded body. */
  function Envelope(result: Value): (r: Result<Value, Error>)
    ensures !result.Obj? ==> r == Err(Fault(AttributeError))
    ensures result.Obj? && Get(result.fields, "ret", Null) == Null ==> r == Ok(result)
    ensures r.Err? && r.error.Jm? ==> r.error.exc.kind in {InsufficientPoints, RequestFailed}
    ensures r.Ok? && r != Ok(result) ==> r == Ok(Get(result.fields, "data", EmptyObj))
  {
    if !result.Obj? then Err(Fault(AttributeError))
    else
      var ret := Get(result.fields, "ret", Null);
      if ret == Null then Ok(result)
      else if RendersAs(ret, "0") then Ok(Get(result.fields, "data", EmptyObj))
      else if RendersAs(ret, "5000") then Err(Raise(InsufficientPoints, "[无法生成图像]: 即梦积分可能不足"))
      else Err(Raise(RequestFailed, "[请求jimeng失败]"))
  }

  /** The envelope decisions, by the value of `ret`: success for the string or
      integer 0 (with `data`, or `{}` when absent), insufficient points (-2009)
      for the string or integer 5000, request failed (-2001) for everything else
      that is present. */
  lemma {:induction false} EnvelopeClassification(fields: map<string, Value>)
    ensures var ret := Get(fields, "ret", Null);
      var r := Envelope(Obj(fields));
      && (ret == Str("0") || ret == Int(0) ==> r == Ok(Get(fields, "data", EmptyObj)))
      && ("ret" in fields && fields["ret"] == Int(0) && "data" !in fields ==> r == Ok(EmptyObj))
      && (ret == Str("5000") || ret == Int(5000) ==> r.Err? && r.error.Jm? && r.error.exc.code == -2009)
      && (ret != Null && ret != Str("0") && ret != Int(0) && ret != Str("5000") && ret != Int(5000) ==>
            r.Err? && r.error.Jm? && r.error.exc.code == -2001)
  {
    var ret := Get(fields, "ret", Null);
    RendersAsZero(ret);
    RendersAsFiveThousand(ret);
  }

  /** Parsing the received text: JSON that does not parse is reported as a failed
      request. `jsonLoads` is `json.loads`. */
  function ParseBody(text: string, jsonLoads: string -> Option<Value>): (r: Result<Value, Error>)
    ensures jsonLoads(text).None? <==> r.Err?
    ensures r.Err? ==> r.error == Raise(RequestFailed, "响应格式错误")
  {
    if jsonLoads(text).Some? then Ok(jsonLoads(text).value) else Err(Raise(RequestFailed, "响应格式错误"))
  }

  /** The response-reading half of `request`. */
  function Receive(response: Response, codecs: Codecs, jsonLoads: string -> Option<Value>): (r: Result<Value, Error>)
    ensures jsonLoads(ResponseText(response, codecs)).None? ==> r == Err(Raise(RequestFailed, "响应格式错误"))
    ensures jsonLoads(ResponseText(response, codecs)).Some? ==> r == Envelope(jsonLoads(ResponseText(response, codecs)).value)
  {
    var body :- ParseBody(ResponseText(response, codecs), jsonLoads);
    Envelope(body)
  }

  // ---------------------------------------------------------------------------
  // check_result
  // ---------------------------------------------------------------------------

  /** The least integer `float(n)` cannot convert: 2^1024 - 2^970, halfway
      between the largest double and 2^1024, rounds up (to even) and
      overflows; everything below it rounds to a finite double. */
  const FloatOverflowBound: int := 0xfffffffffffffc00000000000000000000000000000000000000000000000000000000000000000000000000000000000000000000000000000000000000000000000000000000000000000000000000000000000000000000000000000000000000000000000000000000000000000000000000000000000000000000000000

  /** `float(n)` raises OverflowError. */
  predicate FloatOverflows(n: int) {
    n >= FloatOverflowBound || n <= -FloatOverflowBound
  }

  /** `is_finite(v)`: `float(v)` succeeds and is neither infinite nor NaN.
      `parsesFinite` decides it for strings (a failed parse is a ValueError,
      which is caught); None, lists and dicts make `float` raise TypeError,
      which is caught too; booleans convert. An integer beyond the range of a
      double raises OverflowError, which `is_finite` does not catch. */
  function IsFinite(v: Value, parsesFinite: string -> bool): (r: Result<bool, Error>)
    ensures r.Err? <==> v.Int? && FloatOverflows(v.i)
    ensures r.Err? ==> r.error == Fault(OverflowError)
    ensures r == Ok(true) <==> v.Bool? || (v.Int? && !FloatOverflows(v.i)) || (v.Str? && parsesFinite(v.s))
  {
    match v
    case Null => Ok(false)
    case Bool(_) => Ok(true)
    case Int(n) => if FloatOverflows(n) then Err(Fault(OverflowError)) else Ok(true)
    case Str(s) => Ok(parsesFinite(s))
    case Arr(_) => Ok(false)
    case Obj(_) => Ok(false)
  }

  /** `check_result` on the decoded body (`None` when `response.json()` raises). */
  function CheckResult(body: Option<Value>, parsesFinite: string -> bool): (r: Result<Value, Error>)
    ensures body.None? ==> r == Err(Fault(JsonDecodeError))
    ensures body.Some? && !body.value.Obj? ==> r == Err(Fault(AttributeError))
    ensures body.Some? && body.value.Obj? && IsFinite(Get(body.value.fields, "ret", Null), parsesFinite) == Ok(false) ==>
              r == Ok(body.value)
    ensures body.Some? && body.value.Obj? && IsFinite(Get(body.value.fields, "ret", Null), parsesFinite).Err? ==>
              r == Err(Fault(OverflowError))
    ensures body.Some? && body.value.Obj? && IsFinite(Get(body.value.fields, "ret", Null), parsesFinite) == Ok(true) ==>
              var ret := Get(body.value.fields, "ret", Null);
              && (ret == Str("0") ==> r == Ok(Get(body.value.fields, "data", Null)))
              && (ret == Str("5000") ==> r.Err? && r.error.Jm? && r.error.exc.code == -2009)
              && (ret != Str("0") && ret != Str("5000") ==> r.Err? && r.error.Jm? && r.error.exc.code == -2001)
    ensures r.Err? && r.error.Jm? ==> r.error.exc.kind in {InsufficientPoints, RequestFailed}
  {
    if body.None? then Err(Fault(JsonDecodeError))
    else
      var result := body.value;
      if !result.Obj? then Err(Fault(AttributeError))
      else
        var ret := Get(result.fields, "ret", Null);
        var finite :- IsFinite(ret, parsesFinite);
        if !finite then Ok(result)
        else if ret == Str("0") then Ok(Get(result.fields, "data", Null))
        else if ret == Str("5000") then Err(Raise(InsufficientPoints, "即梦积分可能不足"))
        else Err(Raise(RequestFailed, "请求jimeng失败"))
  }

  /** `check_result` makes the same three-way split as `request` on the string
      codes, except that a missing `data` is None rather than `{}`. */
  lemma {:induction false} CheckResultStringCodes(fields: map<string, Value>, parsesFinite: string -> bool)
    requires parsesFinite("0") && parsesFinite("5000")
    ensures "ret" in fields && fields["ret"] == Str("0") ==>
      CheckResult(Some(Obj(fields)), parsesFinite) == Ok(Get(fields, "data", Null))
      && ("data" in fields ==> Envelope(Obj(fields)) == Ok(fields["data"]))
    ensures "ret" in fields && fields["ret"] == Str("5000") ==>
      CheckResult(Some(Obj(fields)), parsesFinite) == Envelope(Obj(fields))
    ensures "ret" !in fields ==> CheckResult(Some(Obj(fields)), parsesFinite) == Envelope(Obj(fields)) == Ok(Obj(fields))
  {
    EnvelopeClassification(fields);
  }

  /** Apart from integers, `check_result` decides like `request`: on every
      finite `ret` that is not an integer both fail exactly alike, with the same
      typed error, and when `data` is present both return the same value. */
  lemma {:induction false} CheckResultAgreesWithEnvelope(fields: map<string, Value>, parsesFinite: string -> bool)
    requires "ret" in fields && !fields["ret"].Int? && IsFinite(fields["ret"], parsesFinite) == Ok(true)
    ensures CheckResult(Some(Obj(fields)), parsesFinite).Err? <==> Envelope(Obj(fields)).Err?
    ensures CheckResult(Some(Obj(fields)), parsesFinite).Err? ==>
              CheckResult(Some(Obj(fields)), parsesFinite).error == Envelope(Obj(fields)).error
    ensures "data" in fields ==> CheckResult(Some(Obj(fields)), parsesFinite) == Envelope(Obj(fields))
  {
    EnvelopeClassification(fields);
  }

  /** Unlike `request`, `check_result` compares `ret` with the strings "0" and
      "5000" without converting it, so an integer code within the range of a
      double always counts as a failed request there, even the success code 0;
      a larger one escapes as the OverflowError of `float`. */
  lemma {:induction false} CheckResultIntegerCodes(fields: map<string, Value>, parsesFinite: string -> bool, n: int)
    requires "ret" in fields && fields["ret"] == Int(n)
    ensures var r := CheckResult(Some(Obj(fields)), parsesFinite);
      && (!FloatOverflows(n) ==> r.Err? && r.error.Jm? && r.error.exc.code == -2001)
      && (FloatOverflows(n) ==> r == Err(Fault(OverflowError)))
    ensures n == 0 ==> Envelope(Obj(fields)).Ok?
  {
    EnvelopeClassification(fields);
  }
}
