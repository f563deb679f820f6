/** The probe's request, header by header and parameter by parameter. */
module AggregateApiProbe {
  import opened Text
  import opened Sequences
  import opened QueryParams
  import opened AggregateApi
  import opened AggregateApiRuns
  import opened AggregateApiEffects

  // ------------------------------------------------------- stored JSON shapes

  /** What an object gives for an optional text: the text, or nothing at all, or null. */
  predicate Gives(fields: map<string, Json>, name: string, value: Option<string>) {
    match value
    case None => name !in fields || fields[name] == Null
    case Some(text) => name in fields && fields[name] == Str(text)
  }

  /** Each text is read from the field of its name. */
  lemma KeyParamsRead(fields: map<string, Json>, p: ApiKeyParams)
    ensures ReadApiKeyParams(Object(fields)) == Some(p) <==>
              && Gives(fields, "location", Some(p.location)) && Gives(fields, "name", Some(p.name))
              && Gives(fields, "headerValueFormat", p.headerValueFormat)
  {
  }

  lemma PairParamsRead(fields: map<string, Json>, p: UserPassParams)
    ensures ReadUserPassParams(Object(fields)) == Some(p) <==>
              && Gives(fields, "mode", Some(p.mode)) && Gives(fields, "usernameName", p.usernameName)
              && Gives(fields, "passwordName", p.passwordName)
  {
  }

  lemma UserPassRead(fields: map<string, Json>, pair: UserPass)
    ensures ReadUserPass(Object(fields)) == Some(pair) <==>
              Gives(fields, "username", Some(pair.username)) && Gives(fields, "password", Some(pair.password))
  {
  }

  /** An array is read by place. */
  lemma ArraysRead(first: string, second: string, third: string)
    ensures ReadUserPass(Array([Str(first), Str(second)])) == Some(UserPass(first, second))
    ensures ReadApiKeyParams(Array([Str(first), Str(second)])) == Some(ApiKeyParams(first, second, None))
    ensures ReadApiKeyParams(Array([Str(first), Str(second), Str(third)]))
              == Some(ApiKeyParams(first, second, Some(third)))
    ensures ReadUserPassParams(Array([Str(first)])) == Some(UserPassParams(first, None, None))
    ensures ReadUserPassParams(Array([Str(first), Str(second), Str(third)])) ==
              Some(UserPassParams(first, Some(second), Some(third)))
  {
  }

  // ------------------------------------------------------------- the address

  /** The address with one parameter set: last, once, behind the others in their order. */
  ghost predicate OneSet(urls: UrlCodec, url: string, now: string, pair: Pair) {
    match urls.parse(url)
    case None => now == url
    case Some(parsed) =>
      urls.parse(now) == Some(parsed.(query := Filter((other: Pair) => other.0 != pair.0, parsed.query) + [pair]))
  }

  /** The address with two parameters set, which may have one name. */
  ghost predicate BothSet(urls: UrlCodec, url: string, now: string, first: Pair, second: Pair) {
    match urls.parse(url)
    case None => now == url
    case Some(parsed) =>
      var others := Filter((other: Pair) => other.0 != first.0 && other.0 != second.0, parsed.query);
      urls.parse(now) == Some(parsed.(query := others + (if first.0 == second.0 then [] else [first]) + [second]))
  }

  lemma SetsOne(urls: UrlCodec, url: string, pair: Pair)
    requires urls.Lawful()
    ensures OneSet(urls, url, SetQueryParam(urls, url, pair.0, pair.1), pair)
  {
    if urls.parse(url).Some? {
      var query := urls.parse(url).value.query;
      SetParsed(urls, url, urls.parse(url).value, pair);
      FilterAgree(Not(pair.0), (other: Pair) => other.0 != pair.0, query);
    }
  }

  lemma {:induction false} FilterBoth(query: seq<Pair>, a: string, b: string)
    ensures Filter((other: Pair) => other.0 != a && other.0 != b, query) == Others(query, a, b)
  {
    hide Filter;
    var neither := (other: Pair) => other.0 != a && other.0 != b;
    if query == [] {
      FilterNone(neither, query);
      FilterNone(Not(a), query);
      FilterNone(Not(b), query);
    } else {
      var x, rest := query[0], query[1..];
      assert query == [x] + rest;
      FilterBoth(rest, a, b);
      FilterCons(neither, x, rest);
      FilterCons(Not(a), x, rest);
      FilterCons(Not(b), x, Filter(Not(a), rest));
    }
  }

  lemma SetsBoth(urls: UrlCodec, url: string, first: Pair, second: Pair)
    requires urls.Lawful()
    ensures BothSet(urls, url, SetQueryParam(urls, SetQueryParam(urls, url, first.0, first.1), second.0, second.1),
                    first, second)
  {
    hide SetPair, Filter, Others;
    if urls.parse(url).Some? {
      var parsed := urls.parse(url).value;
      var next := parsed.(query := SetPair(parsed.query, first.0, first.1));
      SetParsed(urls, url, parsed, first);
      SetParsed(urls, urls.print_(next), next, second);
      BothShape(parsed.query, first, second);
      FilterBoth(parsed.query, first.0, second.0);
    }
  }

  // ------------------------------------------------------------- the request

  /** The stored parameters, decoded. */
  function StoredParams(env: Env, record: Record): Option<Json> {
    match NonEmpty(record.authParamsJson)
    case None => None
    case Some(raw) => env.decode(raw)
  }

  /**
   * The request for a username and a password: as a pair of headers or of query parameters, the
   * username under the first name and the password under the second; otherwise as basic
   * authentication.
   */
  lemma UserPassRequest(env: Env, probe: Probe, e: Entry, pair: UserPass)
    requires env.urls.Lawful() && Sound(env, e) && ParamsFit(env, e.record.authType, e.record.authParamsJson)
    requires e.record.authType == USERPASS && DecodeUserPass(env, e.secret.value) == Some(pair)
    ensures var r := ApplyProbeAuth(env, probe, e.record, e.secret.value);
            var json := StoredParams(env, e.record);
            var params := if json.Some? then ReadUserPassParams(json.value) else None;
            var u := Trim(Rust, OrDefault(if params.Some? then params.value.usernameName else None, "username"));
            var p := Trim(Rust, OrDefault(if params.Some? then params.value.passwordName else None, "password"));
            && r.Ok?
            && if params.Some? && Word(params.value.mode) == "headerpair" then
                 r.value == Probe(probe.headers + [Header(u, pair.username)] + [Header(p, pair.password)], probe.url)
               else if params.Some? && Word(params.value.mode) == "querypair" then
                 r.value.headers == probe.headers
                 && BothSet(env.urls, probe.url, r.value.url, (u, pair.username), (p, pair.password))
               else
                 r.value == Probe(probe.headers + [BasicAuth(pair.username, pair.password)], probe.url)
  {
    hide NormalizeAuthType, DecodeUserPass, Trim, NonEmpty, ReadUserPassParams, SetQueryParam, OrDefault, ToLower,
         BothSet, env.urls.Lawful;
    StoredTypesDiffer();
    NormalizeStored(e.record.authType);
    TrimOfTrimmed(Rust, e.secret.value);
    var authParams := NonEmpty(e.record.authParamsJson);
    UserPassProbeAccepts(env, probe, pair, authParams);
    if authParams.Some? {
      var params := ReadUserPassParams(env.decode(authParams.value).value).value;
      var u := Trim(Rust, OrDefault(params.usernameName, "username"));
      var p := Trim(Rust, OrDefault(params.passwordName, "password"));
      SetsBoth(env.urls, probe.url, (u, pair.username), (p, pair.password));
    }
  }

  /**
   * The request for an API key: three headers, "Bearer" only on the first, when no parameters are
   * stored; otherwise in the named query parameter, or in the named header as it is or as bearer.
   */
  lemma ApiKeyRequest(env: Env, probe: Probe, e: Entry)
    requires env.urls.Lawful() && Sound(env, e) && ParamsFit(env, e.record.authType, e.record.authParamsJson)
    requires e.record.authType == APIKEY
    ensures var r := ApplyProbeAuth(env, probe, e.record, e.secret.value);
            var json := StoredParams(env, e.record);
            var key := e.secret.value;
            if json.None? then
              && (r.Ok? <==> ValidHeaderValue(key))
              && (r.Ok? ==> r.value == Probe(
                    probe.headers + [Header("authorization", "Bearer " + key)] + [Header("x-api-key", key)]
                                  + [Header("api-key", key)], probe.url))
            else
              var params := ReadApiKeyParams(json.value);
              && r.Ok? && params.Some?
              && var name := Trim(Rust, params.value.name);
                 var raw := params.value.headerValueFormat.Some? && Word(params.value.headerValueFormat.value) == "raw";
                 if Word(params.value.location) == "query" then
                   r.value.headers == probe.headers && OneSet(env.urls, probe.url, r.value.url, (name, key))
                 else
                   r.value == Probe(probe.headers + [Header(name, if raw then key else "Bearer " + key)], probe.url)
  {
    hide NormalizeAuthType, Trim, NonEmpty, ReadApiKeyParams, SetQueryParam, ToLower, OneSet, ValidHeaderValue,
         env.urls.Lawful;
    StoredTypesDiffer();
    NormalizeStored(e.record.authType);
    TrimOfTrimmed(Rust, e.secret.value);
    BearerValid(e.secret.value);
    BearerIsBearer();
    assert |"bearer"| == 6 && |"raw"| == 3;
    var authParams := NonEmpty(e.record.authParamsJson);
    ApiKeyProbeAccepts(env, probe, e.secret.value, authParams);
    if authParams.Some? {
      var params := ReadApiKeyParams(env.decode(authParams.value).value).value;
      SetsOne(env.urls, probe.url, (Trim(Rust, params.name), e.secret.value));
    }
  }
}
