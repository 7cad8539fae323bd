/** `BaseApi`: the state one API instance keeps and its `getData` request
    pipeline — authentication, feed and format checks, `key=value` token
    parsing, the default `force` parameter, URL resolution, and the dispatch on
    the HTTP status. The HTTP exchange itself is an input (`Response`), and the
    file store is a map from path to contents. */
module BaseApi {
  import opened Wrappers
  import opened PhpStrings
  import opened Params
  import opened Feeds
  import opened ApiErrors
  import opened UrlResolver
  import opened CacheFile

  datatype Credentials = Credentials(username: string, password: string)

  datatype Format = Json | Xml | Csv

  function FormatName(f: Format): string
  {
    match f
    case Json => "json"
    case Xml => "xml"
    case Csv => "csv"
  }

  /** `__verifyFormat`: exactly `json`, `xml` or `csv`, and nothing else. */
  function VerifyFormat(format: string): (r: Option<Format>)
    ensures r.Some? <==> format == "json" || format == "xml" || format == "csv"
    ensures r.Some? ==> FormatName(r.value) == format
  {
    if format == "json" then Some(Json)
    else if format == "xml" then Some(Xml)
    else if format == "csv" then Some(Csv)
    else None
  }

  /** Every format is accepted under its own name. */
  lemma FormatNamesAccepted(f: Format)
    ensures VerifyFormat(FormatName(f)) == Some(f)
  {
  }

  /** What a response body or a stored file yields: its text, or PHP's `false`
      when `file_get_contents` finds no file. */
  datatype Raw = Body(text: string) | ReadFailure

  /** The decoded feed. JSON and XML decoding (`json_decode`,
      `simplexml_load_string`) are library calls outside this model, so their
      results are kept as terms over the raw input; csv is not decoded at all. */
  datatype Data = JsonDoc(json: Raw) | XmlDoc(xml: Raw) | Text(raw: Raw)

  /** The input a decoded feed was read from. */
  function Source(d: Data): Raw
  {
    match d
    case JsonDoc(r) => r
    case XmlDoc(r) => r
    case Text(r) => r
  }

  /** The format a decoded feed was read as. */
  function FormatOf(d: Data): Format
  {
    match d
    case JsonDoc(_) => Json
    case XmlDoc(_) => Xml
    case Text(_) => Csv
  }

  /** Decoding in the requested format; csv is the identity. Keeping json and
      xml as terms over their input is a choice of this model: PHP's decoders
      can map different texts to the same value. */
  function Decode(format: Format, raw: Raw): (d: Data)
    ensures Source(d) == raw && FormatOf(d) == format
    ensures format == Csv ==> d == Text(raw)
  {
    match format
    case Json => JsonDoc(raw)
    case Xml => XmlDoc(raw)
    case Csv => Text(raw)
  }

  /** The file store: path to contents. */
  type Files = map<string, string>

  /** The fields of a `BaseApi` instance that `getData` and the accessors use. */
  datatype Api = Api(
    version: string,
    baseUrl: string,
    feeds: Registry,
    storeType: Option<string>,
    storeLocation: Option<string>,
    auth: Option<Credentials>,
    httpCode: int,
    url: string)

  /** The `BaseApi` constructor followed by a subclass assigning its feed table. */
  function NewApi(version: string, feeds: Registry, storeType: Option<string>,
                  storeLocation: Option<string>): (api: Api)
    ensures api.baseUrl == BaseUrlForVersion(version)
    ensures api.feeds == feeds && api.version == version
    ensures api.storeType == storeType && api.storeLocation == storeLocation
    ensures api.auth.None? && api.httpCode == 0 && api.url == ""
  {
    Api(version, BaseUrlForVersion(version), feeds, storeType, storeLocation, None, 0, "")
  }

  /** `setAuthCredentials`: records the key and password and nothing else. */
  function SetAuthCredentials(api: Api, apikey: string, password: string): (r: Api)
    ensures r.auth == Some(Credentials(apikey, password))
    ensures r.(auth := api.auth) == api
  {
    api.(auth := Some(Credentials(apikey, password)))
  }

  /** One `"key=value"` token: split on `=`, which must give exactly two
      pieces, and both pieces trimmed. */
  function ParseToken(token: string): (r: Option<(string, string)>)
    ensures r.Some? <==> Count('=', token) == 1
  {
    var pieces := Explode('=', token);
    if |pieces| != 2 then None else Some((Trim(pieces[0]), Trim(pieces[1])))
  }

  /** A token written as `key=value` reads back as the trimmed key and value. */
  lemma ParseTokenOf(key: string, value: string)
    requires '=' !in key && '=' !in value
    ensures ParseToken(key + "=" + value) == Some((Trim(key), Trim(value)))
  {
    assert Join("=", [key, value]) == key + "=" + value;
    ExplodeJoin('=', [key, value]);
  }

  /** An accepted token is the text before its `=`, the `=`, and the text
      after it, and parsing trims those two texts. */
  lemma TokenPieces(token: string)
    requires ParseToken(token).Some?
    ensures var pieces := Explode('=', token);
      && |pieces| == 2
      && token == pieces[0] + "=" + pieces[1]
      && ParseToken(token) == Some((Trim(pieces[0]), Trim(pieces[1])))
  {
    var pieces := Explode('=', token);
    ExplodesInTwo('=', token);
    JoinExplode('=', token);
    assert pieces[1..] == [pieces[1]];
  }

  /** Writing a parsed pair back as `key=value` parses to the same pair. */
  lemma ReparseToken(token: string)
    requires ParseToken(token).Some?
    ensures var kv := ParseToken(token).value;
      ParseToken(kv.0 + "=" + kv.1) == Some(kv)
  {
    var pieces := Explode('=', token);
    var kv := ParseToken(token).value;
    TrimInfix(pieces[0]);
    TrimInfix(pieces[1]);
    ParseTokenOf(kv.0, kv.1);
    TrimIdempotent(pieces[0]);
    TrimIdempotent(pieces[1]);
  }

  /** The tokens parsed in order onto `acc`; a repeated key keeps its first
      position and takes the later value. The first malformed token is
      reported. */
  function ParseOnto(acc: Params, tokens: seq<string>): (r: Result<Params, Error>)
    ensures r.Success? && Distinct(acc) ==> Distinct(r.value)
    ensures r.Failure? ==> r.error.InvalidParameter?
    decreases |tokens|
  {
    if |tokens| == 0 then Success(acc)
    else
      match ParseToken(tokens[0])
      case None => Failure(InvalidParameter(tokens[0]))
      case Some((k, v)) => ParseOnto(Put(acc, k, v), tokens[1..])
  }

  /** The `$params` loop of `getData`. */
  function ParseKvParams(tokens: seq<string>): (r: Result<Params, Error>)
    ensures r.Success? ==> Distinct(r.value)
    ensures r.Failure? ==> r.error.InvalidParameter?
  {
    ParseOnto([], tokens)
  }

  /** Every token has exactly one `=`. */
  predicate WellFormedTokens(tokens: seq<string>)
  {
    forall i :: 0 <= i < |tokens| ==> Count('=', tokens[i]) == 1
  }

  /** The value of the last well-formed token whose trimmed key is `key`. */
  function LastValue(tokens: seq<string>, key: string): Option<string>
  {
    if |tokens| == 0 then None
    else
      var later := LastValue(tokens[1..], key);
      if later.Some? then later
      else
        match ParseToken(tokens[0])
        case Some((k, v)) => if k == key then Some(v) else None
        case None => None
  }

  lemma {:induction false} ParseOntoSucceeds(acc: Params, tokens: seq<string>)
    ensures ParseOnto(acc, tokens).Success? <==> WellFormedTokens(tokens)
    decreases |tokens|
  {
    if |tokens| > 0 {
      WellFormedCons(tokens);
      match ParseToken(tokens[0])
      case None =>
        assert ParseOnto(acc, tokens) == Failure(InvalidParameter(tokens[0]));
      case Some((k, v)) =>
        ParseOntoSucceeds(Put(acc, k, v), tokens[1..]);
        assert ParseOnto(acc, tokens) == ParseOnto(Put(acc, k, v), tokens[1..]);
    }
  }

  lemma WellFormedCons(tokens: seq<string>)
    requires |tokens| > 0
    ensures WellFormedTokens(tokens) <==> Count('=', tokens[0]) == 1 && WellFormedTokens(tokens[1..])
  {
    assert forall i :: 1 <= i < |tokens| ==> tokens[1..][i - 1] == tokens[i];
  }

  /** Parsing succeeds exactly when every token has exactly one `=`. */
  lemma ParseSucceeds(tokens: seq<string>)
    ensures ParseKvParams(tokens).Success? <==> WellFormedTokens(tokens)
  {
    ParseOntoSucceeds([], tokens);
  }

  lemma {:induction false} ParseOntoReportsFirstBad(acc: Params, tokens: seq<string>)
    ensures ParseOnto(acc, tokens).Failure? ==>
      exists i :: 0 <= i < |tokens|
        && ParseOnto(acc, tokens).error == InvalidParameter(tokens[i])
        && Count('=', tokens[i]) != 1
        && WellFormedTokens(tokens[..i])
    decreases |tokens|
  {
    if |tokens| > 0 {
      if ParseToken(tokens[0]).None? {
        assert ParseOnto(acc, tokens) == Failure(InvalidParameter(tokens[0]));
        assert WellFormedTokens(tokens[..0]);
      } else {
        var (k, v) := ParseToken(tokens[0]).value;
        var rest := tokens[1..];
        ParseStep(acc, tokens);
        ParseOntoReportsFirstBad(Put(acc, k, v), rest);
        if ParseOnto(acc, tokens).Failure? {
          var i :| 0 <= i < |rest|
            && ParseOnto(Put(acc, k, v), rest).error == InvalidParameter(rest[i])
            && Count('=', rest[i]) != 1 && WellFormedTokens(rest[..i]);
          assert rest[i] == tokens[i + 1];
          WellFormedPrefixCons(tokens, i);
          assert ParseOnto(acc, tokens).error == InvalidParameter(tokens[i + 1]);
          assert Count('=', tokens[i + 1]) != 1 && WellFormedTokens(tokens[..i + 1]);
        }
      }
    }
  }

  /** A well-formed first token ahead of a well-formed run of `i` tokens. */
  lemma WellFormedPrefixCons(tokens: seq<string>, i: nat)
    requires i < |tokens| - 1 && Count('=', tokens[0]) == 1 && WellFormedTokens(tokens[1..][..i])
    ensures WellFormedTokens(tokens[..i + 1])
  {
    var before := tokens[..i + 1];
    forall j | 0 <= j < |before| ensures Count('=', before[j]) == 1 {
      if j > 0 {
        assert before[j] == tokens[1..][..i][j - 1];
      }
    }
  }

  /** A failed parse names the first token without exactly one `=`. */
  lemma ParseReportsFirstBad(tokens: seq<string>)
    ensures ParseKvParams(tokens).Failure? ==>
      exists i :: 0 <= i < |tokens|
        && ParseKvParams(tokens).error == InvalidParameter(tokens[i])
        && Count('=', tokens[i]) != 1
        && WellFormedTokens(tokens[..i])
  {
    ParseOntoReportsFirstBad([], tokens);
  }

  lemma {:induction false} ParseOntoValues(acc: Params, tokens: seq<string>, key: string)
    requires ParseOnto(acc, tokens).Success?
    ensures Get(ParseOnto(acc, tokens).value, key)
         == if LastValue(tokens, key).Some? then LastValue(tokens, key) else Get(acc, key)
    decreases |tokens|
  {
    if |tokens| > 0 {
      match ParseToken(tokens[0])
      case Some((k, v)) =>
        ParseOntoValues(Put(acc, k, v), tokens[1..], key);
        GetPut(acc, k, v, key);
    }
  }

  /** After a successful parse each key holds the value of the last token that
      named it, and keys no token named are absent. */
  lemma ParseValues(tokens: seq<string>, key: string)
    requires ParseKvParams(tokens).Success?
    ensures Get(ParseKvParams(tokens).value, key) == LastValue(tokens, key)
  {
    ParseOntoValues([], tokens, key);
  }

  /** The trimmed text before a token's first `=`: the key it names. */
  function TokenKey(token: string): string
  {
    Trim(Explode('=', token)[0])
  }

  /** The keys the tokens name, one per token, in order. */
  function TokenKeys(tokens: seq<string>): (ks: seq<string>)
    ensures |ks| == |tokens|
    ensures forall i :: 0 <= i < |tokens| ==> ks[i] == TokenKey(tokens[i])
  {
    seq(|tokens|, i requires 0 <= i < |tokens| => TokenKey(tokens[i]))
  }

  /** The elements of `ks` without repeats, each where it first appears. */
  function FirstOccurrences(ks: seq<string>): seq<string>
  {
    if |ks| == 0 then []
    else
      var before := ks[..|ks| - 1];
      FirstOccurrences(before) + (if ks[|ks| - 1] in before then [] else [ks[|ks| - 1]])
  }

  lemma {:induction false} FirstOccurrencesElems(ks: seq<string>, x: string)
    ensures x in FirstOccurrences(ks) <==> x in ks
    decreases |ks|
  {
    if |ks| > 0 {
      var before := ks[..|ks| - 1];
      FirstOccurrencesElems(before, x);
      assert ks == before + [ks[|ks| - 1]];
    }
  }

  /** Parsing one more well-formed token assigns its key and value on top of
      what the earlier tokens gave. */
  lemma {:induction false} ParseOntoSnoc(acc: Params, tokens: seq<string>, t: string)
    requires ParseOnto(acc, tokens).Success? && ParseToken(t).Some?
    ensures ParseOnto(acc, tokens + [t])
         == Success(Put(ParseOnto(acc, tokens).value, ParseToken(t).value.0, ParseToken(t).value.1))
    decreases |tokens|
  {
    if |tokens| == 0 {
      ParseLast(acc, t);
    } else {
      var kv := ParseToken(tokens[0]).value;
      ParseStepSnoc(acc, tokens, t);
      ParseOntoSnoc(Put(acc, kv.0, kv.1), tokens[1..], t);
    }
  }

  lemma ParseLast(acc: Params, t: string)
    requires ParseToken(t).Some?
    ensures ParseOnto(acc, [] + [t]) == Success(Put(acc, ParseToken(t).value.0, ParseToken(t).value.1))
  {
    assert [] + [t] == [t] && [t][1..] == [];
    ParseStep(acc, [t]);
  }

  lemma ParseStepSnoc(acc: Params, tokens: seq<string>, t: string)
    requires |tokens| > 0 && ParseToken(tokens[0]).Some?
    ensures var kv := ParseToken(tokens[0]).value;
      && ParseOnto(acc, tokens) == ParseOnto(Put(acc, kv.0, kv.1), tokens[1..])
      && ParseOnto(acc, tokens + [t]) == ParseOnto(Put(acc, kv.0, kv.1), tokens[1..] + [t])
  {
    var all := tokens + [t];
    assert all[0] == tokens[0];
    assert all[1..] == tokens[1..] + [t];
    ParseStep(acc, tokens);
    ParseStep(acc, all);
  }

  /** One step of `ParseOnto` over a well-formed first token. */
  lemma ParseStep(acc: Params, tokens: seq<string>)
    requires |tokens| > 0 && ParseToken(tokens[0]).Some?
    ensures ParseOnto(acc, tokens)
         == ParseOnto(Put(acc, ParseToken(tokens[0]).value.0, ParseToken(tokens[0]).value.1), tokens[1..])
  {
  }

  /** After a successful parse the keys stand in the order the tokens first
      name them, each once. */
  lemma {:induction false} ParseKeys(tokens: seq<string>)
    requires ParseKvParams(tokens).Success?
    ensures Keys(ParseKvParams(tokens).value) == FirstOccurrences(TokenKeys(tokens))
    decreases |tokens|
  {
    if |tokens| > 0 {
      var n := |tokens| - 1;
      var before, t := tokens[..n], tokens[n];
      SplitLast(tokens);
      ParseSucceeds(tokens);
      assert WellFormedTokens(before) by {
        assert forall i :: 0 <= i < n ==> before[i] == tokens[i];
      }
      ParseSucceeds(before);
      ParseKeys(before);
      var kv := ParseToken(t).value;
      ParseOntoSnoc([], before, t);
      TokenKeysSnoc(before, t);
      KeysStep(ParseKvParams(before).value, kv.0, kv.1, TokenKeys(before));
    }
  }

  lemma SplitLast<T>(s: seq<T>)
    requires |s| > 0
    ensures s == s[..|s| - 1] + [s[|s| - 1]]
  {
  }

  lemma TokenKeysSnoc(tokens: seq<string>, t: string)
    ensures TokenKeys(tokens + [t]) == TokenKeys(tokens) + [TokenKey(t)]
  {
    var all := tokens + [t];
    assert forall i :: 0 <= i < |tokens| ==> all[i] == tokens[i];
  }

  /** Assigning the next key keeps the keys in order of first appearance. */
  lemma KeysStep(p: Params, k: string, v: string, prev: seq<string>)
    requires Keys(p) == FirstOccurrences(prev)
    ensures Keys(Put(p, k, v)) == FirstOccurrences(prev + [k])
  {
    var ks := prev + [k];
    assert ks[..|ks| - 1] == prev;
    FirstOccurrencesElems(prev, k);
  }

  /** A token without `=` is refused: `"ab"`. */
  lemma NoEqualsRefused()
    ensures ParseToken("ab") == None
  {
    CountZeroIffAbsent('=', "ab");
  }

  /** A token with two `=` is refused: `"a=b=c"`. */
  lemma TwoEqualsRefused()
    ensures ParseToken("a=b=c") == None
  {
    CountAppend('=', "a=b", "=c");
    assert "a=b" + "=c" == "a=b=c";
  }

  /** An empty key is accepted: `"=b"` reads as key `""` and value `"b"`. */
  lemma EmptyKeyAccepted()
    ensures ParseToken("=b") == Some(("", "b"))
  {
    CountAppend('=', "=", "b");
    assert "=" + "b" == "=b";
    assert "=b"[1..] == "b";
    assert Explode('=', "b") == ["b"] by {
      assert "b"[1..] == "";
      assert Explode('=', "") == [""];
      assert ['b'] + "" == "b";
    }
    assert Explode('=', "=b") == ["", "b"];
    TrimUntouched("b");
  }

  /** The `force` default: a caller's own `force` stays as given; otherwise
      `force=false` is added when responses are stored in files (so the server
      may answer 304) and `force=true` when they are not. */
  function WithDefaultForce(params: Params, storeType: Option<string>): (r: Params)
    ensures HasKey(r, "force")
    ensures HasKey(params, "force") ==> r == params
    ensures !HasKey(params, "force") ==>
      Get(r, "force") == Some(if storeType == Some("file") then "false" else "true")
    ensures !HasKey(params, "force") ==>
      r == params + [("force", if storeType == Some("file") then "false" else "true")]
    ensures Distinct(params) ==> Distinct(r)
  {
    if HasKey(params, "force") then params
    else
      var r := Put(params, "force", if storeType == Some("file") then "false" else "true");
      GetPut(params, "force", if storeType == Some("file") then "false" else "true", "force");
      r
  }

  /** Adding the default `force` changes no other parameter. */
  lemma DefaultForceKeepsOthers(params: Params, storeType: Option<string>, key: string)
    requires key != "force"
    ensures Get(WithDefaultForce(params, storeType), key) == Get(params, key)
  {
    if !HasKey(params, "force") {
      GetPut(params, "force", if storeType == Some("file") then "false" else "true", key);
    }
  }

  /** Where a response for `filename` is stored: `storeLocation . filename`
      (a null location reads as the empty string). */
  function StorePath(api: Api, filename: string): string
  {
    api.storeLocation.GetOr("") + filename
  }

  /** The server's answer: HTTP status and body. */
  datatype Response = Response(status: int, body: string)

  /** The status dispatch of `getData`: 200 decodes the body and, with file
      storage, writes the raw body to the store; 304 decodes what the store
      holds under the same filename; any other status is an error. */
  function Dispatch(api: Api, format: Format, filename: string, response: Response, files: Files)
    : (r: (Files, Result<Data, Error>))
    ensures r.1.Failure? <==> response.status != 200 && response.status != 304
    ensures r.1.Failure? ==> r.1.error == RequestFailed(response.status)
    ensures r.0 == files || (api.storeType == Some("file") && response.status == 200
                             && r.0 == files[StorePath(api, filename) := response.body])
    ensures response.status == 200 ==> r.1 == Success(Decode(format, Body(response.body)))
    ensures response.status == 304 ==>
      var path := StorePath(api, filename);
      r.1 == Success(Decode(format, if path in files then Body(files[path]) else ReadFailure))
  {
    if response.status == 200 then
      var files' := if api.storeType == Some("file") then files[StorePath(api, filename) := response.body]
                    else files;
      (files', Success(Decode(format, Body(response.body))))
    else if response.status == 304 then
      var path := StorePath(api, filename);
      var raw := if path in files then Body(files[path]) else ReadFailure;
      (files, Success(Decode(format, raw)))
    else (files, Failure(RequestFailed(response.status)))
  }

  /** What one `getData` call leaves behind: the instance, the file store, the
      URL requested (`None` when no request was made) and the answer. */
  datatype Outcome = Outcome(api: Api, files: Files, requested: Option<string>, result: Result<Data, Error>)

  /** What `getData` settles before it sends anything: the checks in order
      (credentials, feed name, format), the parsed tokens with the default
      `force`, and the URL. */
  datatype Request = Request(format: Format, params: Params, url: string)

  function Prepare(api: Api, league: string, season: string, feed: string, format: string,
                   kvParams: seq<string>): (r: Result<Request, Error>)
    ensures r == Failure(NotAuthenticated) <==> api.auth.None?
    ensures r.Success? ==> FormatName(r.value.format) == format && HasKey(r.value.params, "force")
    ensures api.auth.Some? && VerifyFeedName(api.feeds, feed) && VerifyFormat(format).Some? ==>
      && (ParseKvParams(kvParams).Failure? ==> r == Failure(ParseKvParams(kvParams).error))
      && (ParseKvParams(kvParams).Success? ==>
            var url := DetermineUrl(api.baseUrl, api.feeds, league, season, feed, format,
                                    RequestParams(api, kvParams));
            url.Failure? ==> r == Failure(url.error))
  {
    if api.auth.None? then Failure(NotAuthenticated)
    else if !VerifyFeedName(api.feeds, feed) then Failure(UnknownFeed(feed))
    else
      match VerifyFormat(format)
      case None => Failure(UnsupportedFormat(format))
      case Some(fmt) =>
        var parsed :- ParseKvParams(kvParams);
        var params := WithDefaultForce(parsed, api.storeType);
        var url :- DetermineUrl(api.baseUrl, api.feeds, league, season, feed, format, params);
        Success(Request(fmt, params, url))
  }

  /** `getData($league, $season, $feed, $format, ...$kvParams)`, with the
      server's `response` to the request it makes. */
  function GetData(api: Api, files: Files, league: string, season: string, feed: string,
                   format: string, kvParams: seq<string>, response: Response): (o: Outcome)
    ensures o.requested.None? ==> o.api == api && o.files == files && o.result.Failure?
    ensures o.api.(url := api.url, httpCode := api.httpCode) == api
    ensures o.result == Failure(NotAuthenticated) <==> api.auth.None?
  {
    match Prepare(api, league, season, feed, format, kvParams)
    case Failure(e) => Outcome(api, files, None, Failure(e))
    case Success(req) =>
      var api' := api.(url := req.url, httpCode := response.status);
      var filename := MakeOutputFilename(league, season, feed, format, req.params);
      var (files', result) := Dispatch(api', req.format, filename, response, files);
      Outcome(api', files', Some(req.url), result)
  }

  /** The parameters `getData` resolves the URL and the filename from. */
  function RequestParams(api: Api, kvParams: seq<string>): Params
    requires ParseKvParams(kvParams).Success?
  {
    WithDefaultForce(ParseKvParams(kvParams).value, api.storeType)
  }

  /** The checks before any token is parsed or any URL built, in order:
      credentials, then the feed name, then the format; after them the first
      malformed token, and then whatever `__determineUrl` refuses. */
  lemma GatingOrder(api: Api, files: Files, league: string, season: string, feed: string,
                    format: string, kvParams: seq<string>, response: Response)
    ensures var o := GetData(api, files, league, season, feed, format, kvParams, response);
      && (api.auth.None? ==> o.result == Failure(NotAuthenticated))
      && (api.auth.Some? && feed !in Names(api.feeds) ==> o.result == Failure(UnknownFeed(feed)))
      && ((api.auth.Some? && feed in Names(api.feeds) && VerifyFormat(format).None?)
            ==> o.result == Failure(UnsupportedFormat(format)))
      && (api.auth.None? || feed !in Names(api.feeds) || VerifyFormat(format).None? ==>
            o.api == api && o.files == files && o.requested.None?)
    ensures var o := GetData(api, files, league, season, feed, format, kvParams, response);
      api.auth.Some? && feed in Names(api.feeds) && VerifyFormat(format).Some? ==>
      && (ParseKvParams(kvParams).Failure? ==> o.result == Failure(ParseKvParams(kvParams).error))
      && (ParseKvParams(kvParams).Success? ==>
            var url := DetermineUrl(api.baseUrl, api.feeds, league, season, feed, format,
                                    RequestParams(api, kvParams));
            url.Failure? ==> o.result == Failure(url.error))
  {
  }

  /** A request is made exactly when every check passes and the URL resolves;
      the URL requested is the one `__determineUrl` builds from the parsed
      tokens plus the default `force`, and it is what `getURL` reports. */
  lemma RequestMadeIff(api: Api, files: Files, league: string, season: string, feed: string,
                       format: string, kvParams: seq<string>, response: Response)
    ensures var o := GetData(api, files, league, season, feed, format, kvParams, response);
      o.requested.Some? <==>
        && api.auth.Some? && feed in Names(api.feeds) && VerifyFormat(format).Some?
        && ParseKvParams(kvParams).Success?
        && DetermineUrl(api.baseUrl, api.feeds, league, season, feed, format,
                        RequestParams(api, kvParams)).Success?
    ensures var o := GetData(api, files, league, season, feed, format, kvParams, response);
      o.requested.Some? ==>
        && o.requested.value == DetermineUrl(api.baseUrl, api.feeds, league, season, feed, format,
                                             RequestParams(api, kvParams)).value
        && o.api == api.(url := o.requested.value, httpCode := response.status)
  {
  }

  /** Once the request is made, `url` and `httpCode` are set whatever the
      status, a status other than 200 or 304 is an error naming it, and the
      file store changes only on a 200 with file storage, at the request's
      filename computed from all its parameters. A 200 answers with the body
      decoded in the requested format, a 304 with the stored file decoded the
      same way. */
  lemma AfterRequest(api: Api, files: Files, league: string, season: string, feed: string,
                     format: string, kvParams: seq<string>, response: Response)
    ensures var o := GetData(api, files, league, season, feed, format, kvParams, response);
      o.requested.Some? ==>
      && ParseKvParams(kvParams).Success?
      && o.api.httpCode == response.status
      && (o.result.Failure? <==> response.status != 200 && response.status != 304)
      && (o.result.Failure? ==> o.result.error == RequestFailed(response.status))
      && (api.storeType == Some("file") && response.status == 200 ==>
            o.files == files[StorePath(api, MakeOutputFilename(league, season, feed, format,
                                                                RequestParams(api, kvParams))) := response.body])
      && (api.storeType != Some("file") || response.status != 200 ==> o.files == files)
      && var fmt := VerifyFormat(format).value;
         var path := StorePath(api, MakeOutputFilename(league, season, feed, format,
                                                       RequestParams(api, kvParams)));
         && (response.status == 200 ==> o.result == Success(Decode(fmt, Body(response.body))))
         && (response.status == 304 ==>
               o.result == Success(Decode(fmt, if path in files then Body(files[path]) else ReadFailure)))
  {
    PrepareParts(api, league, season, feed, format, kvParams);
  }

  /** A 200 answer under file storage, followed by a 304 for the same request,
      hands back the same data: the 304 reads the file the 200 wrote. */
  lemma RefreshRoundTrip(api: Api, files: Files, league: string, season: string, feed: string,
                         format: string, kvParams: seq<string>, body: string, later: string)
    requires api.storeType == Some("file")
    ensures var first := GetData(api, files, league, season, feed, format, kvParams, Response(200, body));
      var second := GetData(first.api, first.files, league, season, feed, format, kvParams, Response(304, later));
      first.requested.Some? ==>
      && second.requested == first.requested
      && second.result == first.result
      && second.result.Success?
  {
    var first := GetData(api, files, league, season, feed, format, kvParams, Response(200, body));
    if first.requested.None? {
      return;
    }
    PrepareParts(api, league, season, feed, format, kvParams);
    PrepareIgnoresLastRequest(api, first.api, league, season, feed, format, kvParams);
    var req := Prepare(api, league, season, feed, format, kvParams).value;
    var filename := MakeOutputFilename(league, season, feed, format, req.params);
    assert StorePath(first.api, filename) == StorePath(api, filename);
    assert first.files == files[StorePath(api, filename) := body];
  }

  /** What a successful `Prepare` settled: the parsed tokens with the default
      `force`, and the URL built from them. */
  lemma PrepareParts(api: Api, league: string, season: string, feed: string, format: string,
                     kvParams: seq<string>)
    ensures var r := Prepare(api, league, season, feed, format, kvParams);
      r.Success? ==>
        && ParseKvParams(kvParams).Success?
        && r.value.params == RequestParams(api, kvParams)
        && r.value.url == DetermineUrl(api.baseUrl, api.feeds, league, season, feed, format, r.value.params).value
  {
    var r := Prepare(api, league, season, feed, format, kvParams);
    if r.Success? {
      assert api.auth.Some? && VerifyFeedName(api.feeds, feed) && VerifyFormat(format).Some?;
      var parsed := ParseKvParams(kvParams);
      assert parsed.Success?;
      var params := WithDefaultForce(parsed.value, api.storeType);
      var url := DetermineUrl(api.baseUrl, api.feeds, league, season, feed, format, params);
      assert url.Success?;
      assert r == Success(Request(VerifyFormat(format).value, params, url.value));
    }
  }

  /** The URL and status of the previous request play no part in the next. */
  lemma PrepareIgnoresLastRequest(api: Api, api2: Api, league: string, season: string, feed: string,
                                  format: string, kvParams: seq<string>)
    requires api2.(url := api.url, httpCode := api.httpCode) == api
    ensures Prepare(api2, league, season, feed, format, kvParams) == Prepare(api, league, season, feed, format, kvParams)
  {
    assert api2.auth == api.auth && api2.feeds == api.feeds;
    assert api2.storeType == api.storeType && api2.baseUrl == api.baseUrl;
  }

  /** A 304 ignores the body the server sent: the data is read from the stored
      file, in the requested format, and csv hands back the stored text
      unchanged. */
  lemma NotModified(api: Api, files: Files, league: string, season: string, feed: string,
                    format: string, kvParams: seq<string>, body: string)
    ensures var o := GetData(api, files, league, season, feed, format, kvParams, Response(304, body));
      o.requested.Some? ==>
      var path := StorePath(api, MakeOutputFilename(league, season, feed, format, RequestParams(api, kvParams)));
      var raw := if path in files then Body(files[path]) else ReadFailure;
      && o.result.Success?
      && Source(o.result.value) == raw
      && FormatName(FormatOf(o.result.value)) == format
      && (format == "csv" ==> o.result == Success(Text(raw)))
  {
    PrepareParts(api, league, season, feed, format, kvParams);
  }
}
