/** What whole runs of aggregate API calls keep. */
module AggregateApiRuns {
  import opened Text
  import opened QueryParams
  import opened AggregateApi

  // -------------------------------------------------- the writes of one update

  function After(e: Entry, stage: Stage): Entry {
    match stage
    case Ok(Some(write)) => Written(e, write)
    case _ => e
  }

  /** All writes from step k on, as if none were refused or failed. */
  function AfterFrom(env: Env, found: Record, q: UpdateRequest, k: nat, e: Entry): Entry
    decreases STEPS - k
  {
    if k >= STEPS then e else AfterFrom(env, found, q, k + 1, After(e, StageAt(env, found, q, k)))
  }

  ghost predicate Accepts(env: Env, found: Record, q: UpdateRequest) {
    forall k: nat :: k < STEPS ==> StageAt(env, found, q, k).Ok?
  }

  /** A run from step k is through exactly if no later step refuses and no later write fails. */
  lemma {:induction false} RunThrough(env: Env, found: Record, q: UpdateRequest, k: nat, e: Entry, fails: Faults)
    ensures RunFrom(env, found, q, k, e, fails).outcome == Done ==>
              RunFrom(env, found, q, k, e, fails).entry == AfterFrom(env, found, q, k, e)
    ensures RunFrom(env, found, q, k, e, fails).outcome == Done <==>
              forall j: nat :: k <= j < STEPS ==>
                StageAt(env, found, q, j).Ok? && (StageAt(env, found, q, j).value.Some? ==> !fails(j))
    decreases STEPS - k
  {
    hide StageAt, Written;
    if k < STEPS {
      RunThrough(env, found, q, k + 1, After(e, StageAt(env, found, q, k)), fails);
    }
  }

  function Kind(write: Write): nat {
    match write
    case SetAuthType(_) => 0
    case SetProviderType(_) => 1
    case SetSupplierName(_) => 2
    case SetSort(_) => 3
    case SetStatus(_) => 4
    case SetUrl(_) => 5
    case SetAuthParams(_) => 6
    case SetAction(_) => 7
    case PutSecret(_) => 8
  }

  lemma StageKind(env: Env, found: Record, q: UpdateRequest, k: nat)
    requires k < STEPS
    ensures StageAt(env, found, q, k).Ok? && StageAt(env, found, q, k).value.Some? ==>
              Kind(StageAt(env, found, q, k).value.value) == k
  {
    hide NormalizeAuthType, NormalizeProviderType, NormalizeStatus, NormalizeAuthParamsJson, NormalizeActionOverride,
         NonEmpty, NextAuthType, ExistingAuthType, UserPassSecret, Trim;
  }

  /** The entry already has what the write would put there. */
  predicate Has(e: Entry, write: Write) {
    Written(e, write) == e
  }

  /** The place a write of this kind changes is the same in both. */
  predicate SamePlace(kind: nat, a: Entry, b: Entry) {
    && (kind == 0 ==> a.record.authType == b.record.authType)
    && (kind == 6 ==> a.record.authParamsJson == b.record.authParamsJson)
    && (kind == 8 ==> a.secret == b.secret)
  }

  lemma WritesApart(e: Entry, w: Write, v: Write)
    ensures Has(Written(e, w), w)
    ensures Kind(w) != Kind(v) && Has(e, w) ==> Has(Written(e, v), w)
    ensures forall kind :: Kind(v) != kind ==> SamePlace(kind, e, Written(e, v))
  {
  }

  lemma {:induction false} LaterKeeps(env: Env, found: Record, q: UpdateRequest, k: nat, e: Entry, w: Write)
    requires Kind(w) < k && Has(e, w)
    ensures Has(AfterFrom(env, found, q, k, e), w)
    decreases STEPS - k
  {
    hide StageAt, Written, Has, Kind;
    if k < STEPS {
      StageKind(env, found, q, k);
      var stage := StageAt(env, found, q, k);
      if stage.Ok? && stage.value.Some? { WritesApart(e, w, stage.value.value); }
      LaterKeeps(env, found, q, k + 1, After(e, stage), w);
    }
  }

  lemma {:induction false} AllWritten(env: Env, found: Record, q: UpdateRequest, k: nat, e: Entry, j: nat)
    requires k <= j < STEPS && StageAt(env, found, q, j).Ok? && StageAt(env, found, q, j).value.Some?
    ensures Has(AfterFrom(env, found, q, k, e), StageAt(env, found, q, j).value.value)
    decreases STEPS - k
  {
    hide StageAt, Written, Has, Kind;
    var stage := StageAt(env, found, q, k);
    if k == j {
      StageKind(env, found, q, k);
      WritesApart(e, stage.value.value, stage.value.value);
      LaterKeeps(env, found, q, k + 1, After(e, stage), stage.value.value);
    } else {
      AllWritten(env, found, q, k + 1, After(e, stage), j);
    }
  }

  lemma {:induction false} NotWritten(env: Env, found: Record, q: UpdateRequest, k: nat, e: Entry, kind: nat)
    requires kind < STEPS && StageAt(env, found, q, kind) == Ok(None)
    ensures SamePlace(kind, e, AfterFrom(env, found, q, k, e))
    decreases STEPS - k
  {
    hide StageAt, Written, Kind;
    if k < STEPS {
      StageKind(env, found, q, k);
      var stage := StageAt(env, found, q, k);
      if stage.Ok? && stage.value.Some? {
        WritesApart(e, stage.value.value, stage.value.value);
        assert k != kind;
        assert SamePlace(kind, e, Written(e, stage.value.value));
      }
      assert SamePlace(kind, e, After(e, stage));
      NotWritten(env, found, q, k + 1, After(e, stage), kind);
    }
  }

  /** Everything an accepted update leaves: its writes are in place, and what it did not write is as before. */
  lemma UpdateDone(env: Env, e: Entry, q: UpdateRequest, fails: Faults)
    requires UpdateEntry(env, e, q, fails).outcome == Done
    ensures var r := UpdateEntry(env, e, q, fails).entry;
            && Accepts(env, e.record, q)
            && r == AfterFrom(env, e.record, q, 0, e)
            && (forall j: nat :: j < STEPS && StageAt(env, e.record, q, j).value.Some? ==>
                  Has(r, StageAt(env, e.record, q, j).value.value))
            && (forall j: nat :: j < STEPS && StageAt(env, e.record, q, j).value.None? ==> SamePlace(j, e, r))
  {
    hide StageAt, Written, Has, SamePlace;
    RunThrough(env, e.record, q, 0, e, fails);
    forall j: nat | j < STEPS && StageAt(env, e.record, q, j).value.Some?
      ensures Has(AfterFrom(env, e.record, q, 0, e), StageAt(env, e.record, q, j).value.value)
    {
      AllWritten(env, e.record, q, 0, e, j);
    }
    forall j: nat | j < STEPS && StageAt(env, e.record, q, j).value.None?
      ensures SamePlace(j, e, AfterFrom(env, e.record, q, 0, e))
    {
      NotWritten(env, e.record, q, 0, e, j);
    }
  }

  // ----------------------------------------------------------- sound entries

  /** The secret is of the kind the authentication type calls for. */
  predicate SecretFits(env: Env, authType: string, secret: string) {
    Trimmed(Rust, secret) && secret != ""
      && (authType == APIKEY || (authType == USERPASS && DecodeUserPass(env, secret).Some?))
  }

  predicate Sound(env: Env, e: Entry) {
    e.secret.Some? && SecretFits(env, e.record.authType, e.secret.value)
  }

  lemma UserPassSecretFits(env: Env, username: string, password: string)
    requires env.Lawful()
    ensures SecretFits(env, USERPASS, UserPassSecret(env, username, password))
  {
    var json := SecretJson(UserPass(username, password));
    assert env.decode(env.encode(json)) == Some(json);
  }

  lemma ExistingOfSound(env: Env, e: Entry)
    requires Sound(env, e)
    ensures ExistingAuthType(e.record) == e.record.authType
  {
    NormalizeStored(e.record.authType);
  }

  lemma CanonicalFixed(s: string)
    requires Trimmed(Rust, s) && forall k :: 0 <= k < |s| ==> 'a' <= s[k] <= 'z'
    ensures Canonical(s) == s
  {
    hide TrimStart, TrimEnd;
    assert ToLower(s) == s;
    FindChar(s, '-');
  }

  /** The two stored spellings are their own normal form. */
  lemma NormalizeStored(authType: string)
    requires authType == APIKEY || authType == USERPASS
    ensures NormalizeAuthType(Some(authType)) == Ok(authType)
  {
    hide Canonical;
    CanonicalFixed(APIKEY);
    CanonicalFixed(USERPASS);
    assert |APIKEY| == 6 && |USERPASS| == 8;
  }

  /** An accepted update leaves the record with the type it announced, and a secret of that type. */
  lemma UpdateKeepsSound(env: Env, e: Entry, q: UpdateRequest, fails: Faults)
    requires env.Lawful() && Sound(env, e)
    requires UpdateEntry(env, e, q, fails).outcome == Done
    ensures var r := UpdateEntry(env, e, q, fails).entry;
            Sound(env, r) && r.record.authType == NextAuthType(e.record, q)
  {
    hide UpdateEntry, NormalizeAuthType, AfterFrom, SecretFits, Accepts;
    UpdateDone(env, e, q, fails);
    ExistingOfSound(env, e);
    StagesAre(env, e.record, q);
    var r, next := UpdateEntry(env, e, q, fails).entry, NextAuthType(e.record, q);
    AcceptsStage(env, e.record, q, 0);
    AcceptsStage(env, e.record, q, 8);
    NextIs(env, e, q, r);
    SecretIs(env, e, q, r);
  }

  lemma AcceptsStage(env: Env, found: Record, q: UpdateRequest, k: nat)
    requires Accepts(env, found, q) && k < STEPS
    ensures StageAt(env, found, q, k).Ok?
  {
  }

  lemma NextIs(env: Env, e: Entry, q: UpdateRequest, r: Entry)
    requires ExistingAuthType(e.record) == e.record.authType
    requires AuthTypeStage(q).Ok?
    requires AuthTypeStage(q).value.Some? ==> Has(r, AuthTypeStage(q).value.value)
    requires AuthTypeStage(q).value.None? ==> SamePlace(0, e, r)
    ensures r.record.authType == NextAuthType(e.record, q)
  {
    hide NormalizeAuthType, ExistingAuthType;
  }

  lemma SecretIs(env: Env, e: Entry, q: UpdateRequest, r: Entry)
    requires env.Lawful() && Sound(env, e) && ExistingAuthType(e.record) == e.record.authType
    requires r.record.authType == NextAuthType(e.record, q)
    requires var next := NextAuthType(e.record, q);
             var stage := SecretStage(env, next, next != e.record.authType, q);
             && stage.Ok?
             && (stage.value.Some? ==> Has(r, stage.value.value))
             && (stage.value.None? ==> SamePlace(8, e, r))
    ensures Sound(env, r)
  {
    hide NonEmpty, UserPassSecret, DecodeUserPass, NextAuthType, ExistingAuthType, Trimmed;
    var next := NextAuthType(e.record, q);
    NextIsAType(e.record, q);
    StoredTypesDiffer();
    if next == APIKEY {
      NonEmptyFits(q.key);
    } else if NonEmpty(q.username).Some? && NonEmpty(q.password).Some? {
      UserPassSecretFits(env, NonEmpty(q.username).value, NonEmpty(q.password).value);
    }
  }

  lemma StoredTypesDiffer()
    ensures APIKEY != USERPASS
  {
    assert |APIKEY| == 6 && |USERPASS| == 8;
  }

  lemma NonEmptyFits(value: Option<string>)
    ensures NonEmpty(value).Some? ==> NonEmpty(value).value != "" && Trimmed(Rust, NonEmpty(value).value)
  {
  }

  lemma NextIsAType(record: Record, q: UpdateRequest)
    ensures NextAuthType(record, q) == APIKEY || NextAuthType(record, q) == USERPASS
  {
  }

  // -------------------------------------------------------- repeating an update

  lemma {:induction false} WrittenAlready(env: Env, found: Record, q: UpdateRequest, k: nat, e: Entry)
    requires forall j: nat :: j < STEPS && StageAt(env, found, q, j).Ok? && StageAt(env, found, q, j).value.Some? ==>
               Has(e, StageAt(env, found, q, j).value.value)
    ensures AfterFrom(env, found, q, k, e) == e
    decreases STEPS - k
  {
    hide StageAt, Written;
    if k < STEPS {
      assert After(e, StageAt(env, found, q, k)) == e;
      WrittenAlready(env, found, q, k + 1, e);
    }
  }

  /** Asked again, an accepted request meets the same steps; only the type no longer changes. */
  lemma SameStages(env: Env, found: Record, again: Record, q: UpdateRequest, k: nat)
    requires k < STEPS && StageAt(env, found, q, k).Ok?
    requires NextAuthType(again, q) == NextAuthType(found, q) == ExistingAuthType(again)
    ensures StageAt(env, again, q, k) == StageAt(env, found, q, k)
  {
    hide AuthTypeStage, ProviderTypeStage, SupplierNameStage, SortStage, StatusStage, UrlStage, AuthParamsStage,
         ActionStage, NextAuthType, ExistingAuthType, NonEmpty, UserPassSecret;
  }

  lemma NextOfUpdated(found: Record, again: Record, q: UpdateRequest)
    requires ExistingAuthType(again) == NextAuthType(found, q)
    ensures NextAuthType(again, q) == NextAuthType(found, q)
  {
    hide NormalizeAuthType, ExistingAuthType;
  }

  /** Repeating an update that went through goes through again and changes nothing. */
  lemma RepeatedUpdate(env: Env, e: Entry, q: UpdateRequest, fails: Faults, later: Faults)
    requires env.Lawful() && Sound(env, e)
    requires UpdateEntry(env, e, q, fails).outcome == Done
    requires forall k :: !later(k)
    ensures var r := UpdateEntry(env, e, q, fails).entry;
            UpdateEntry(env, r, q, later) == Run(Done, r)
  {
    hide UpdateEntry, StageAt, NextAuthType, ExistingAuthType, Sound, Has, AfterFrom, env.Lawful;
    var r := UpdateEntry(env, e, q, fails).entry;
    UpdateDone(env, e, q, fails);
    UpdateKeepsSound(env, e, q, fails);
    ExistingOfSound(env, r);
    NextOfUpdated(e.record, r.record, q);
    forall k: nat | k < STEPS ensures StageAt(env, r.record, q, k) == StageAt(env, e.record, q, k) {
      AcceptsStage(env, e.record, q, k);
      SameStages(env, e.record, r.record, q, k);
    }
    WrittenAlready(env, r.record, q, 0, r);
    RunThrough(env, r.record, q, 0, r, later);
    UpdateIsRun(env, r, q, later);
  }

  lemma UpdateIsRun(env: Env, e: Entry, q: UpdateRequest, fails: Faults)
    ensures UpdateEntry(env, e, q, fails) == RunFrom(env, e.record, q, 0, e, fails)
  {
  }

  // ------------------------------------------------- authentication parameters

  /** Stored parameters, if any, read back as the kind the type calls for. */
  predicate ParamsFit(env: Env, authType: string, authParamsJson: Option<string>) {
    match NonEmpty(authParamsJson)
    case None => true
    case Some(raw) =>
      var json := env.decode(raw);
      json.Some? &&
      if authType == USERPASS then ReadUserPassParams(json.value).Some? else ReadApiKeyParams(json.value).Some?
  }

  lemma CheckedParamsFit(env: Env, authType: string, enabled: Option<bool>, authParams: Option<Json>)
    requires env.Lawful() && (authType == APIKEY || authType == USERPASS)
    ensures var r := NormalizeAuthParamsJson(env, authType, enabled, authParams);
            && (r.Ok? && r.value.Some? ==> ParamsFit(env, authType, r.value) && Trimmed(Rust, r.value.value))
            && (r.Ok? ==> (r.value.Some? <==> enabled.Some?))
  {
    hide CheckAuthParams, Trim, ReadApiKeyParams, ReadUserPassParams;
    if enabled.Some? && enabled.value && authParams.Some? {
      var text := env.encode(authParams.value);
      assert env.decode(text) == Some(authParams.value) && text != "" && Trimmed(Rust, text);
      TrimOfTrimmed(Rust, text);
      CheckedParamsRead(authType, authParams.value);
    }
    TrimOfTrimmed(Rust, "");
  }

  lemma CheckedParamsRead(authType: string, json: Json)
    ensures json.Object? && CheckAuthParams(authType, json).Ok? && authType == APIKEY ==> ReadApiKeyParams(json).Some?
    ensures json.Object? && CheckAuthParams(authType, json).Ok? && authType == USERPASS ==>
              ReadUserPassParams(json).Some?
  {
    hide ReadApiKeyParams, ReadUserPassParams, Trim, ToLower;
    StoredTypesDiffer();
  }

  /**
   * After an accepted update the parameters fit the type if the request spoke about them; if it did
   * not, they are the old ones, judged by the new type.
   */
  lemma UpdateParams(env: Env, e: Entry, q: UpdateRequest, fails: Faults)
    requires env.Lawful() && Sound(env, e)
    requires UpdateEntry(env, e, q, fails).outcome == Done
    ensures var r := UpdateEntry(env, e, q, fails).entry.record;
            ParamsFit(env, r.authType, r.authParamsJson) <==>
              q.authCustomEnabled.Some? || ParamsFit(env, NextAuthType(e.record, q), e.record.authParamsJson)
  {
    hide UpdateEntry, StageAt, NextAuthType, Sound, AfterFrom, env.Lawful, ParamsFit, Accepts;
    var r, next := UpdateEntry(env, e, q, fails).entry, NextAuthType(e.record, q);
    UpdateDone(env, e, q, fails);
    UpdateKeepsSound(env, e, q, fails);
    NextIsAType(e.record, q);
    AcceptsStage(env, e.record, q, 6);
    StagesAre(env, e.record, q);
    ParamsStage(env, next, q, e, r);
  }

  lemma ParamsStage(env: Env, authType: string, q: UpdateRequest, e: Entry, r: Entry)
    requires env.Lawful() && (authType == APIKEY || authType == USERPASS)
    requires var stage := AuthParamsStage(env, authType, q);
             && stage.Ok?
             && (stage.value.Some? ==> Has(r, stage.value.value))
             && (stage.value.None? ==> SamePlace(6, e, r))
    ensures if q.authCustomEnabled.Some? then ParamsFit(env, authType, r.record.authParamsJson)
            else r.record.authParamsJson == e.record.authParamsJson
  {
    hide NormalizeAuthParamsJson, ParamsFit, Trim;
    CheckedParamsFit(env, authType, q.authCustomEnabled, q.authParams);
    NoParamsFit(env, authType);
    var json := NormalizeAuthParamsJson(env, authType, q.authCustomEnabled, q.authParams).value;
    if json.Some? { TrimOfTrimmed(Rust, json.value); }
  }

  lemma NoParamsFit(env: Env, authType: string)
    ensures ParamsFit(env, authType, None)
  {
  }

  /** A sound entry with fitting parameters is probed, unless a bare key cannot stand in a header. */
  lemma ProbeAccepts(env: Env, probe: Probe, e: Entry)
    requires Sound(env, e) && ParamsFit(env, e.record.authType, e.record.authParamsJson)
    ensures ApplyProbeAuth(env, probe, e.record, e.secret.value).Ok? <==>
              e.record.authType == USERPASS || NonEmpty(e.record.authParamsJson).Some?
              || ValidHeaderValue("Bearer " + e.secret.value)
  {
    hide NormalizeAuthType, DecodeUserPass, Trim, NonEmpty, ReadUserPassParams, ReadApiKeyParams, ValidHeaderValue,
         UserPassProbe, ApiKeyProbe;
    StoredTypesDiffer();
    NormalizeStored(e.record.authType);
    TrimOfTrimmed(Rust, e.secret.value);
    var authParams := NonEmpty(e.record.authParamsJson);
    ApiKeyProbeAccepts(env, probe, e.secret.value, authParams);
    if e.record.authType == USERPASS {
      UserPassProbeAccepts(env, probe, DecodeUserPass(env, e.secret.value).value, authParams);
    }
  }

  lemma ApiKeyProbeAccepts(env: Env, probe: Probe, key: string, authParams: Option<string>)
    ensures ApiKeyProbe(env, probe, key, authParams).Ok? <==>
              match authParams
              case None => ValidHeaderValue("Bearer " + key)
              case Some(raw) => env.decode(raw).Some? && ReadApiKeyParams(env.decode(raw).value).Some?
  {
    hide ReadApiKeyParams, ValidHeaderValue, Trim, ToLower, SetQueryParam;
  }

  lemma UserPassProbeAccepts(env: Env, probe: Probe, secret: UserPass, authParams: Option<string>)
    ensures UserPassProbe(env, probe, secret, authParams).Ok? <==>
              match authParams
              case None => true
              case Some(raw) => env.decode(raw).Some? && ReadUserPassParams(env.decode(raw).value).Some?
  {
    hide ReadUserPassParams, Trim, ToLower, SetQueryParam;
  }

  /** What the HTTP client checks when the request is sent: the names and values of the headers given. */
  ghost predicate Sendable(env: Env, probe: Probe) {
    forall k :: 0 <= k < |probe.headers| ==> HeaderOk(env, probe.headers[k])
  }

  predicate HeaderOk(env: Env, header: Header) {
    match header
    case BasicAuth(_, _) => true
    case Header(name, value) => env.headerName(name) && ValidHeaderValue(value)
  }

  /** The headers that carry the credentials as they are; none if they go into the address or are encoded. */
  function HeaderNames(env: Env, authType: string, authParams: Option<string>): seq<string> {
    match authParams
    case None => if authType == USERPASS then [] else ["authorization", "x-api-key", "api-key"]
    case Some(raw) =>
      match env.decode(raw)
      case None => []
      case Some(json) => if authType == USERPASS then PairNames(json) else KeyNames(json)
  }

  function PairNames(json: Json): seq<string> {
    match ReadUserPassParams(json)
    case None => []
    case Some(params) =>
      if ToLower(Trim(Rust, params.mode)) != "headerpair" then []
      else
        var usernameName := OrDefault(params.usernameName, "username");
        var passwordName := OrDefault(params.passwordName, "password");
        [Trim(Rust, usernameName), Trim(Rust, passwordName)]
  }

  function KeyNames(json: Json): seq<string> {
    match ReadApiKeyParams(json)
    case None => []
    case Some(params) => if ToLower(Trim(Rust, params.location)) == "query" then [] else [Trim(Rust, params.name)]
  }

  predicate CredentialsValid(env: Env, authType: string, secret: string) {
    if authType == USERPASS then
      match DecodeUserPass(env, secret)
      case None => false
      case Some(pair) => ValidHeaderValue(pair.username) && ValidHeaderValue(pair.password)
    else ValidHeaderValue(secret)
  }

  /** Names the client accepts, and no control character in a credential that becomes a header value. */
  predicate HeadersFit(env: Env, authType: string, authParams: Option<string>, secret: string) {
    var names := HeaderNames(env, authType, authParams);
    names != [] ==>
      (forall k :: 0 <= k < |names| ==> env.headerName(names[k])) && CredentialsValid(env, authType, secret)
  }

  lemma BearerValid(key: string)
    ensures ValidHeaderValue("Bearer " + key) <==> ValidHeaderValue(key)
  {
    var value := "Bearer " + key;
    forall k | 0 <= k < |key| ensures value[7 + k] == key[k] {}
    if ValidHeaderValue(key) {
      forall k | 0 <= k < |value| ensures value[k] == '\t' || (' ' <= value[k] && value[k] != '\U{007F}') {
        if k >= 7 { assert value[k] == key[k - 7]; }
      }
    } else {
      var k :| 0 <= k < |key| && !(key[k] == '\t' || (' ' <= key[k] && key[k] != '\U{007F}'));
      assert value[7 + k] == key[k];
    }
  }

  lemma ApiKeySends(env: Env, probe: Probe, key: string, authParams: Option<string>)
    requires Sendable(env, probe) && ApiKeyProbe(env, probe, key, authParams).Ok?
    ensures Sendable(env, ApiKeyProbe(env, probe, key, authParams).value) <==>
              var names := HeaderNames(env, APIKEY, authParams);
              names == [] || ((forall k :: 0 <= k < |names| ==> env.headerName(names[k])) && ValidHeaderValue(key))
  {
    hide ReadApiKeyParams, ValidHeaderValue, Trim, ToLower, SetQueryParam, OrDefault;
    StoredTypesDiffer();
    BearerValid(key);
    var sent, n := ApiKeyProbe(env, probe, key, authParams).value, |probe.headers|;
    var names := HeaderNames(env, APIKEY, authParams);
    if |sent.headers| > n {
      assert sent.headers[n].value == key || sent.headers[n].value == "Bearer " + key;
      assert sent.headers[n].name == names[0];
      if authParams.None? {
        assert sent.headers[n + 1] == Header(names[1], key) && sent.headers[n + 2] == Header(names[2], key);
      }
    }
  }

  lemma UserPassSends(env: Env, probe: Probe, pair: UserPass, authParams: Option<string>)
    requires Sendable(env, probe) && UserPassProbe(env, probe, pair, authParams).Ok?
    ensures Sendable(env, UserPassProbe(env, probe, pair, authParams).value) <==>
              var names := HeaderNames(env, USERPASS, authParams);
              names == [] || ((forall k :: 0 <= k < |names| ==> env.headerName(names[k]))
                              && ValidHeaderValue(pair.username) && ValidHeaderValue(pair.password))
  {
    hide ReadUserPassParams, ValidHeaderValue, Trim, ToLower, SetQueryParam, OrDefault;
    var sent, n := UserPassProbe(env, probe, pair, authParams).value, |probe.headers|;
    var names := HeaderNames(env, USERPASS, authParams);
    if names != [] {
      assert sent.headers[n] == Header(names[0], pair.username);
      assert sent.headers[n + 1] == Header(names[1], pair.password);
    }
  }

  /**
   * The exact condition for a probe to be built and to be sent. A sound entry with fitting parameters
   * goes out unless its credentials become header values: then the names must be header names and the
   * credentials must be free of control characters.
   */
  lemma ProbeSends(env: Env, probe: Probe, e: Entry)
    requires Sound(env, e) && ParamsFit(env, e.record.authType, e.record.authParamsJson) && Sendable(env, probe)
    requires env.KnowsOwnHeaders()
    ensures var r := ApplyProbeAuth(env, probe, e.record, e.secret.value);
            r.Ok? && Sendable(env, r.value) <==>
              HeadersFit(env, e.record.authType, NonEmpty(e.record.authParamsJson), e.secret.value)
  {
    hide NormalizeAuthType, DecodeUserPass, Trim, NonEmpty, ReadUserPassParams, ReadApiKeyParams, ValidHeaderValue,
         UserPassProbe, ApiKeyProbe, HeaderNames, Sendable;
    StoredTypesDiffer();
    NormalizeStored(e.record.authType);
    TrimOfTrimmed(Rust, e.secret.value);
    var authParams := NonEmpty(e.record.authParamsJson);
    if e.record.authType == USERPASS {
      var pair := DecodeUserPass(env, e.secret.value).value;
      UserPassProbeAccepts(env, probe, pair, authParams);
      UserPassSends(env, probe, pair, authParams);
    } else {
      ApiKeyProbeAccepts(env, probe, e.secret.value, authParams);
      BearerValid(e.secret.value);
      BareNames(env);
      if ApiKeyProbe(env, probe, e.secret.value, authParams).Ok? {
        ApiKeySends(env, probe, e.secret.value, authParams);
      }
    }
  }

  lemma BareNames(env: Env)
    ensures HeaderNames(env, APIKEY, None) == ["authorization", "x-api-key", "api-key"]
  {
    StoredTypesDiffer();
  }

  /** A request with an API key and perhaps parameters for it. */
  function KeyRequest(url: Option<string>, supplier: string, key: string, authParams: Option<Json>): CreateRequest {
    var enabled := if authParams.Some? then Some(true) else None;
    CreateRequest(url, Some(key), None, Some(supplier), None, None, enabled, authParams, None, None, None, None)
  }

  lemma KeyPrepared(env: Env, url: Option<string>, supplier: string, key: string, authParams: Option<Json>)
    requires env.normalizeUrl(url).Ok?
    ensures var r := Prepare(env, KeyRequest(url, supplier, key, authParams));
            var json := NormalizeAuthParamsJson(env, APIKEY, if authParams.Some? then Some(true) else None, authParams);
            && (r.Ok? <==> NonEmpty(Some(supplier)).Some? && NonEmpty(Some(key)).Some? && json.Ok?)
            && (r.Ok? ==> r.value.secret == NonEmpty(Some(key)).value && r.value.record.authType == APIKEY
                          && r.value.record.authParamsJson == if json.value == Some("") then None else json.value)
  {
    hide Trim, NormalizeAuthParamsJson;
  }

  lemma NoParams()
    ensures NonEmpty(None) == None
  {
  }

  lemma LineBreakInKey()
    ensures NonEmpty(Some("a\nb")) == Some("a\nb") && NonEmpty(Some("s")) == Some("s")
    ensures !ValidHeaderValue("a\nb")
  {
    assert Trimmed(Rust, "a\nb") && Trimmed(Rust, "s");
    assert "a\nb"[1] == '\n';
  }

  /** Creation stores this key as it is, without parameters, and every probe with it is refused. */
  lemma KeysCanBeUnsendable(env: Env, url: Option<string>, probe: Probe)
    requires env.normalizeUrl(url).Ok?
    ensures var r := Prepare(env, KeyRequest(url, "s", "a\nb", None));
            && r.Ok? && r.value.secret == "a\nb" && r.value.record.authParamsJson == None
            && ApplyProbeAuth(env, probe, r.value.record, r.value.secret) == Err("invalid aggregate api key")
  {
    hide Prepare, NormalizeAuthType, NonEmpty, ValidHeaderValue, Trim, ReadApiKeyParams;
    LineBreakInKey();
    NoParams();
    KeyPrepared(env, url, "s", "a\nb", None);
    NormalizeStored(APIKEY);
    StoredTypesDiffer();
    BearerValid("a\nb");
    TrimOfTrimmed(Rust, "a\nb");
  }

  /** Parameters that put the key into a header of the user's own. */
  function OwnHeader(name: string): Json {
    Object(map["location" := Str("header"), "name" := Str(name)])
  }

  /** With parameters of this kind the same key passes the probe's own checks as well, and is refused by the client. */
  lemma OwnHeadersCanBeUnsendable(env: Env, url: Option<string>, probe: Probe)
    requires env.normalizeUrl(url).Ok? && env.Lawful() && Sendable(env, probe)
    ensures var r := Prepare(env, KeyRequest(url, "s", "a\nb", Some(OwnHeader("xkey"))));
            && r.Ok? && r.value.secret == "a\nb"
            && var p := ApplyProbeAuth(env, probe, r.value.record, r.value.secret);
               p.Ok? && !Sendable(env, p.value)
  {
    hide Prepare, NormalizeAuthType, NonEmpty, ValidHeaderValue, Trim, ToLower, ReadApiKeyParams, ApiKeyProbe,
         HeaderNames, Sendable;
    var json := OwnHeader("xkey");
    LineBreakInKey();
    OwnHeaderReads(env, json);
    KeyPrepared(env, url, "s", "a\nb", Some(json));
    NormalizeStored(APIKEY);
    StoredTypesDiffer();
    TrimOfTrimmed(Rust, "a\nb");
    var authParams := Some(env.encode(json));
    ApiKeyProbeAccepts(env, probe, "a\nb", authParams);
    ApiKeySends(env, probe, "a\nb", authParams);
  }

  lemma OwnHeaderRead(name: string)
    ensures ReadApiKeyParams(OwnHeader(name)) == Some(ApiKeyParams("header", name, None))
  {
    var json := OwnHeader(name);
    assert "location" != "name" by { assert |"location"| == 8 && |"name"| == 4; }
    assert "headerValueFormat" !in json.fields by {
      assert |"headerValueFormat"| == 17 && |"location"| == 8 && |"name"| == 4;
    }
  }

  lemma PlainWord(word: string)
    requires word != "" && forall k :: 0 <= k < |word| ==> 'a' <= word[k] <= 'z'
    ensures Trim(Rust, word) == word && ToLower(word) == word
  {
  }

  lemma OwnHeaderChecked(env: Env)
    requires env.Lawful()
    ensures var json := OwnHeader("xkey");
            && NormalizeAuthParamsJson(env, APIKEY, Some(true), Some(json)) == Ok(Some(env.encode(json)))
            && KeyNames(json) == ["xkey"]
  {
    hide Trim, ToLower, ReadApiKeyParams;
    StoredTypesDiffer();
    OwnHeaderRead("xkey");
    PlainWord("header");
    PlainWord("xkey");
    PlainWord("bearer");
    assert |"header"| == 6 && |"query"| == 5;
    assert "location" in OwnHeader("xkey").fields;
  }

  lemma OwnHeaderReads(env: Env, json: Json)
    requires env.Lawful() && json == OwnHeader("xkey")
    ensures NormalizeAuthParamsJson(env, APIKEY, Some(true), Some(json)) == Ok(Some(env.encode(json)))
    ensures env.encode(json) != "" && NonEmpty(Some(env.encode(json))) == Some(env.encode(json))
    ensures env.decode(env.encode(json)) == Some(json) && ReadApiKeyParams(json).Some?
    ensures HeaderNames(env, APIKEY, Some(env.encode(json))) == ["xkey"]
  {
    hide NormalizeAuthParamsJson, ReadApiKeyParams, KeyNames, PairNames;
    StoredTypesDiffer();
    OwnHeaderRead("xkey");
    OwnHeaderChecked(env);
    assert env.decode(env.encode(json)) == Some(json) && Trimmed(Rust, env.encode(json));
  }

  // ---------------------------------------------------- probing twice

  /** What a probe was asked for, apart from the address. */
  lemma SetQueryParamTwice(urls: UrlCodec, url: string, name: string, value: string)
    requires urls.Lawful()
    ensures var once := SetQueryParam(urls, url, name, value); SetQueryParam(urls, once, name, value) == once
  {
    hide SetPair;
    if urls.parse(url).Some? {
      var parsed := urls.parse(url).value;
      var next := parsed.(query := SetPair(parsed.query, name, value));
      SetOneTwice(parsed.query, name, value);
      SetParsed(urls, url, parsed, (name, value));
      SetParsed(urls, urls.print_(next), next, (name, value));
    }
  }

  lemma SetBothParamsTwice(urls: UrlCodec, url: string, first: Pair, second: Pair)
    requires urls.Lawful()
    ensures var once := SetQueryParam(urls, SetQueryParam(urls, url, first.0, first.1), second.0, second.1);
            SetQueryParam(urls, SetQueryParam(urls, once, first.0, first.1), second.0, second.1) == once
  {
    hide SetPair;
    if urls.parse(url).Some? {
      var parsed := urls.parse(url).value;
      var query := SetBoth(parsed.query, first, second);
      SetBothTwice(parsed.query, first, second);
      SetParsed(urls, url, parsed, first);
      SetParsed(urls, urls.print_(parsed.(query := SetPair(parsed.query, first.0, first.1))),
                parsed.(query := SetPair(parsed.query, first.0, first.1)), second);
      var once := urls.print_(parsed.(query := query));
      SetParsed(urls, once, parsed.(query := query), first);
      SetParsed(urls, urls.print_(parsed.(query := SetPair(query, first.0, first.1))),
                parsed.(query := SetPair(query, first.0, first.1)), second);
    }
  }

  lemma SetParsed(urls: UrlCodec, url: string, parsed: Url, pair: Pair)
    requires urls.Lawful() && urls.parse(url) == Some(parsed)
    ensures var next := parsed.(query := SetPair(parsed.query, pair.0, pair.1));
            SetQueryParam(urls, url, pair.0, pair.1) == urls.print_(next) && urls.parse(urls.print_(next)) == Some(next)
  {
  }

  /**
   * The probe builds its request again for the address it got: the second pass adds the same headers
   * and leaves that address as it is.
   */
  lemma ProbeAddressIsFixed(env: Env, headers: seq<Header>, url: string, record: Record, secret: string)
    requires env.urls.Lawful() && ApplyProbeAuth(env, Probe(headers, url), record, secret).Ok?
    ensures var first := ApplyProbeAuth(env, Probe(headers, url), record, secret).value;
            ApplyProbeAuth(env, Probe(headers, first.url), record, secret) == Ok(first)
  {
    hide NormalizeAuthType, DecodeUserPass, Trim, NonEmpty, UserPassProbe, ApiKeyProbe;
    var authType := NormalizeAuthType(Some(record.authType)).value;
    var authParams := NonEmpty(record.authParamsJson);
    if authType == USERPASS {
      UserPassAddressIsFixed(env, headers, url, DecodeUserPass(env, Trim(Rust, secret)).value, authParams);
    } else {
      ApiKeyAddressIsFixed(env, headers, url, Trim(Rust, secret), authParams);
    }
  }

  lemma UserPassAddressIsFixed(env: Env, headers: seq<Header>, url: string, secret: UserPass,
                               authParams: Option<string>)
    requires env.urls.Lawful() && UserPassProbe(env, Probe(headers, url), secret, authParams).Ok?
    ensures var first := UserPassProbe(env, Probe(headers, url), secret, authParams).value;
            UserPassProbe(env, Probe(headers, first.url), secret, authParams) == Ok(first)
  {
    hide Trim, ToLower, ReadUserPassParams, SetQueryParam, OrDefault;
    if authParams.Some? {
      var params := ReadUserPassParams(env.decode(authParams.value).value).value;
      var u := Trim(Rust, OrDefault(params.usernameName, "username"));
      var p := Trim(Rust, OrDefault(params.passwordName, "password"));
      SetBothParamsTwice(env.urls, url, (u, secret.username), (p, secret.password));
    }
  }

  lemma ApiKeyAddressIsFixed(env: Env, headers: seq<Header>, url: string, key: string, authParams: Option<string>)
    requires env.urls.Lawful() && ApiKeyProbe(env, Probe(headers, url), key, authParams).Ok?
    ensures var first := ApiKeyProbe(env, Probe(headers, url), key, authParams).value;
            ApiKeyProbe(env, Probe(headers, first.url), key, authParams) == Ok(first)
  {
    hide Trim, ToLower, ReadApiKeyParams, SetQueryParam, ValidHeaderValue;
    if authParams.Some? {
      var params := ReadApiKeyParams(env.decode(authParams.value).value).value;
      SetQueryParamTwice(env.urls, url, Trim(Rust, params.name), key);
    }
  }

  // ------------------------------------------------------------ whole runs

  type Table = map<string, Entry>

  datatype Request =
    | Create(newId: string, create: CreateRequest)
    | Update(id: string, update: UpdateRequest)
    | Delete(id: string)

  /** What a call leaves when it returns Ok; `None` when it does not. */
  function Called(env: Env, table: Table, request: Request, fails: Faults): Option<Table> {
    match request
    case Create(newId, q) =>
      var prepared := Prepare(env, q);
      if prepared.Err? || fails(0) || fails(1) then None
      else Some(table[newId := Entry(prepared.value.record, Some(prepared.value.secret))])
    case Update(id, q) =>
      if id == "" || id !in table then None
      else
        var r := UpdateEntry(env, table[id], q, fails);
        if r.outcome == Done then Some(table[id := r.entry]) else None
    case Delete(id) => if id == "" || fails(0) || fails(1) then None else Some(table - {id})
  }

  /** The stored rows with the secrets that belong to them. */
  function Contents(records: map<string, Record>, secrets: map<string, string>): Table {
    map id | id in records :: Entry(records[id], if id in secrets then Some(secrets[id]) else None)
  }

  /** One call against the storage: what it leaves there is what the table model says. */
  method Serve(storage: Storage, env: Env, request: Request, fails: Faults) returns (r: Outcome)
    modifies storage
    ensures var called := Called(env, Contents(old(storage.records), old(storage.secrets)), request, fails);
            && (r == Done <==> called.Some?)
            && (r == Done ==> Contents(storage.records, storage.secrets) == called.value)
  {
    hide Prepare, UpdateEntry;
    ghost var records, secrets := storage.records, storage.secrets;
    match request
    case Create(newId, q) =>
      var key;
      r, key := storage.CreateAggregateApi(env, newId, q, fails);
    case Update(id, q) =>
      r := storage.UpdateAggregateApi(env, id, q, fails);
      if id != "" && id in records {
        SameElsewhere(records, secrets, storage.records, storage.secrets, id);
      }
    case Delete(id) =>
      r := storage.DeleteAggregateApi(id, fails);
  }

  lemma SameElsewhere(records: map<string, Record>, secrets: map<string, string>,
                      records': map<string, Record>, secrets': map<string, string>, id: string)
    requires records - {id} == records' - {id} && secrets - {id} == secrets' - {id}
    requires id in records && id in records'
    ensures Contents(records', secrets') == Contents(records, secrets)[id := Contents(records', secrets')[id]]
  {
    forall other ensures other in records' <==> other in records {
      assert other in records - {id} <==> other in records' - {id};
    }
    forall other | other in records && other != id
      ensures Contents(records', secrets')[other] == Contents(records, secrets)[other]
    {
      assert other in records - {id};
      assert other in secrets - {id} <==> other in secrets' - {id};
      assert (records - {id})[other] == (records' - {id})[other];
      assert other in secrets ==> (secrets - {id})[other] == (secrets' - {id})[other];
    }
  }

  /** A run of calls that all returned Ok, from the empty storage. */
  function AfterCalls(env: Env, requests: seq<Request>, fails: nat -> Faults): Option<Table> {
    if requests == [] then Some(map[])
    else
      var last := |requests| - 1;
      match AfterCalls(env, requests[..last], fails)
      case None => None
      case Some(table) => Called(env, table, requests[last], fails(last))
  }

  ghost predicate SoundTable(env: Env, table: Table) {
    forall id :: id in table ==> id != "" && Sound(env, table[id])
  }

  lemma PreparedIsSound(env: Env, q: CreateRequest)
    requires env.Lawful() && Prepare(env, q).Ok?
    ensures var p := Prepare(env, q).value;
            && Sound(env, Entry(p.record, Some(p.secret)))
            && ParamsFit(env, p.record.authType, p.record.authParamsJson)
  {
    hide NormalizeProviderType, NormalizeAuthType, NormalizeAuthParamsJson, NormalizeActionOverride, NonEmpty,
         UserPassSecret, ParamsFit, DecodeUserPass, Trimmed;
    var authType := NormalizeAuthType(q.authType).value;
    CheckedParamsFit(env, authType, q.authCustomEnabled, q.authParams);
    NoParamsFit(env, authType);
    NonEmptyFits(q.key);
    StoredTypesDiffer();
    if authType == USERPASS {
      UserPassSecretFits(env, NonEmpty(q.username).value, NonEmpty(q.password).value);
    }
  }

  /**
   * After any run of creations, updates and deletions that all returned Ok, every record has a secret of the
   * kind its type calls for, and reading it back succeeds with that type.
   */
  lemma {:induction false} RunsStaySound(env: Env, requests: seq<Request>, fails: nat -> Faults)
    requires env.Lawful() && AfterCalls(env, requests, fails).Some?
    requires forall k :: 0 <= k < |requests| && requests[k].Create? ==> requests[k].newId != ""
    ensures var table := AfterCalls(env, requests, fails).value;
            && SoundTable(env, table)
            && (forall id :: id in table ==>
                  && ReadEntry(env, id, table[id]).Ok?
                  && ReadEntry(env, id, table[id]).value.authType == table[id].record.authType)
  {
    hide Sound, Prepare, UpdateEntry, ReadEntry, env.Lawful;
    if requests != [] {
      var last := |requests| - 1;
      RunsStaySound(env, requests[..last], fails);
      var table := AfterCalls(env, requests[..last], fails).value;
      match requests[last] {
        case Create(newId, q) => PreparedIsSound(env, q);
        case Update(id, q) => UpdateKeepsSound(env, table[id], q, fails(last));
        case Delete(_) =>
      }
    }
    var table := AfterCalls(env, requests, fails).value;
    forall id | id in table
      ensures ReadEntry(env, id, table[id]).Ok?
                && ReadEntry(env, id, table[id]).value.authType == table[id].record.authType
    {
      SoundReads(env, id, table[id]);
    }
  }

  lemma SoundReads(env: Env, id: string, e: Entry)
    requires Sound(env, e)
    ensures ReadEntry(env, id, e).Ok? && ReadEntry(env, id, e).value.authType == e.record.authType
  {
    hide NormalizeAuthType, DecodeUserPass;
    StoredTypesDiffer();
    NormalizeStored(e.record.authType);
  }

  /** Every update that changed the type also said what the parameters are to be. */
  ghost predicate Careful(env: Env, requests: seq<Request>, fails: nat -> Faults) {
    forall k :: 0 <= k < |requests| && requests[k].Update? ==>
      var before := AfterCalls(env, requests[..k], fails);
      before.Some? && requests[k].id in before.value ==>
        var record := before.value[requests[k].id].record;
        NextAuthType(record, requests[k].update) == record.authType || requests[k].update.authCustomEnabled.Some?
  }

  lemma CarefulPrefix(env: Env, requests: seq<Request>, fails: nat -> Faults)
    requires Careful(env, requests, fails) && requests != []
    ensures Careful(env, requests[..|requests| - 1], fails)
  {
    var prefix := requests[..|requests| - 1];
    forall k | 0 <= k < |prefix| ensures prefix[..k] == requests[..k] && prefix[k] == requests[k] {}
  }

  lemma {:induction false} CarefulRunsFit(env: Env, requests: seq<Request>, fails: nat -> Faults)
    requires env.Lawful() && AfterCalls(env, requests, fails).Some? && Careful(env, requests, fails)
    requires forall k :: 0 <= k < |requests| && requests[k].Create? ==> requests[k].newId != ""
    ensures forall id :: id in AfterCalls(env, requests, fails).value ==>
              var e := AfterCalls(env, requests, fails).value[id];
              ParamsFit(env, e.record.authType, e.record.authParamsJson)
  {
    hide Sound, Prepare, UpdateEntry, ParamsFit, NextAuthType, env.Lawful;
    if requests != [] {
      var last := |requests| - 1;
      CarefulPrefix(env, requests, fails);
      CarefulRunsFit(env, requests[..last], fails);
      RunsStaySound(env, requests[..last], fails);
      var table := AfterCalls(env, requests[..last], fails).value;
      match requests[last] {
        case Create(newId, q) => PreparedIsSound(env, q);
        case Update(id, q) =>
          assert q.authCustomEnabled.Some? || NextAuthType(table[id].record, q) == table[id].record.authType;
          UpdateParams(env, table[id], q, fails(last));
        case Delete(_) =>
      }
    }
  }

  /**
   * If moreover no update changed a type without settling the parameters, building the probe refuses
   * no record's stored parameters or secret, with one exception: a bare key that cannot stand in a
   * header.
   */
  lemma CarefulRunsCanProbe(env: Env, requests: seq<Request>, fails: nat -> Faults, id: string, probe: Probe)
    requires env.Lawful() && AfterCalls(env, requests, fails).Some? && Careful(env, requests, fails)
    requires forall k :: 0 <= k < |requests| && requests[k].Create? ==> requests[k].newId != ""
    requires id in AfterCalls(env, requests, fails).value
    ensures var e := AfterCalls(env, requests, fails).value[id];
            e.secret.Some? &&
            (ApplyProbeAuth(env, probe, e.record, e.secret.value).Ok? <==>
               e.record.authType == USERPASS || NonEmpty(e.record.authParamsJson).Some?
               || ValidHeaderValue("Bearer " + e.secret.value))
  {
    hide AfterCalls, ApplyProbeAuth, ParamsFit, Careful, env.Lawful;
    RunsStaySound(env, requests, fails);
    CarefulRunsFit(env, requests, fails);
    ProbeAccepts(env, probe, AfterCalls(env, requests, fails).value[id]);
  }

  /** And sending it succeeds exactly if credentials that become header values can stand there. */
  lemma CarefulRunsCanSend(env: Env, requests: seq<Request>, fails: nat -> Faults, id: string, probe: Probe)
    requires env.Lawful() && AfterCalls(env, requests, fails).Some? && Careful(env, requests, fails)
    requires forall k :: 0 <= k < |requests| && requests[k].Create? ==> requests[k].newId != ""
    requires id in AfterCalls(env, requests, fails).value
    requires Sendable(env, probe) && env.KnowsOwnHeaders()
    ensures var e := AfterCalls(env, requests, fails).value[id];
            e.secret.Some? &&
            var r := ApplyProbeAuth(env, probe, e.record, e.secret.value);
            r.Ok? && Sendable(env, r.value) <==>
              HeadersFit(env, e.record.authType, NonEmpty(e.record.authParamsJson), e.secret.value)
  {
    hide AfterCalls, ApplyProbeAuth, ParamsFit, Careful, HeadersFit, Sendable, env.Lawful;
    RunsStaySound(env, requests, fails);
    CarefulRunsFit(env, requests, fails);
    ProbeSends(env, probe, AfterCalls(env, requests, fails).value[id]);
  }

  lemma {:induction false} FailedKeeps(env: Env, found: Record, q: UpdateRequest, k: nat, e: Entry, fails: Faults)
    requires 1 <= k && RunFrom(env, found, q, k, e, fails).outcome.Failed?
    ensures var r := RunFrom(env, found, q, k, e, fails).entry;
            r.record.authType == e.record.authType && r.secret == e.secret
    decreases STEPS - k
  {
    hide StageAt, Written, Kind;
    if k < STEPS {
      var stage := StageAt(env, found, q, k);
      StageKind(env, found, q, k);
      if stage.Ok? && !(stage.value.Some? && fails(k)) {
        if stage.value.Some? {
          WritesApart(e, stage.value.value, stage.value.value);
          assert SamePlace(0, e, Written(e, stage.value.value));
        }
        FailedKeeps(env, found, q, k + 1, After(e, stage), fails);
        assert k < 8 ==> SamePlace(8, e, After(e, stage));
      }
    }
  }

  /**
   * A refused update has already written the new type but never the secret. So a sound record stays
   * sound exactly when the type was not written, or the old secret happens to fit the new type.
   */
  lemma RefusedUpdate(env: Env, e: Entry, q: UpdateRequest, fails: Faults)
    requires Sound(env, e) && UpdateEntry(env, e, q, fails).outcome.Failed?
    ensures var r := UpdateEntry(env, e, q, fails).entry;
            var stage := AuthTypeStage(q);
            && r.secret == e.secret
            && (Sound(env, r) <==>
                  stage.Err? || stage.value.None? || fails(0)
                    || SecretFits(env, NextAuthType(e.record, q), e.secret.value))
  {
    hide SecretFits, NormalizeAuthType, ExistingAuthType;
    StagesAre(env, e.record, q);
    var stage := AuthTypeStage(q);
    if stage.Ok? && !(stage.value.Some? && fails(0)) {
      FailedKeeps(env, e.record, q, 1, After(e, stage), fails);
    }
  }

  // ------------------------------------------------ all a refused update leaves

  /** The entry after the writes of the first k steps. */
  function Wrote(env: Env, found: Record, q: UpdateRequest, k: nat, e: Entry): Entry
    requires k <= STEPS
  {
    if k == 0 then e else After(Wrote(env, found, q, k - 1, e), StageAt(env, found, q, k - 1))
  }

  predicate Passes(env: Env, found: Record, q: UpdateRequest, k: nat, fails: Faults)
    requires k < STEPS
  {
    var stage := StageAt(env, found, q, k);
    stage.Ok? && (stage.value.Some? ==> !fails(k))
  }

  ghost predicate Reached(env: Env, found: Record, q: UpdateRequest, k: nat, fails: Faults)
    requires k <= STEPS
  {
    forall j: nat :: j < k ==> Passes(env, found, q, j, fails)
  }

  /** The run stops at its first step that does not pass. */
  lemma {:induction false} StopsAt(env: Env, e: Entry, q: UpdateRequest, k: nat, fails: Faults) returns (n: nat)
    requires k <= STEPS && Reached(env, e.record, q, k, fails)
    requires RunFrom(env, e.record, q, k, Wrote(env, e.record, q, k, e), fails).outcome.Failed?
    ensures k <= n < STEPS && Reached(env, e.record, q, n, fails) && !Passes(env, e.record, q, n, fails)
    ensures RunFrom(env, e.record, q, k, Wrote(env, e.record, q, k, e), fails).entry == Wrote(env, e.record, q, n, e)
    decreases STEPS - k
  {
    hide StageAt, Written;
    if Passes(env, e.record, q, k, fails) {
      n := StopsAt(env, e, q, k + 1, fails);
    } else {
      n := k;
    }
  }

  /**
   * Whatever an update that did not return Ok leaves: the writes before the first step that refused
   * or failed, no others.
   */
  lemma RefusedPrefix(env: Env, e: Entry, q: UpdateRequest, fails: Faults) returns (n: nat)
    requires UpdateEntry(env, e, q, fails).outcome.Failed?
    ensures n < STEPS && Reached(env, e.record, q, n, fails) && !Passes(env, e.record, q, n, fails)
    ensures UpdateEntry(env, e, q, fails).entry == Wrote(env, e.record, q, n, e)
  {
    hide StageAt, Written, RunFrom;
    n := StopsAt(env, e, q, 0, fails);
  }

  lemma {:induction false} WroteParams(env: Env, found: Record, q: UpdateRequest, k: nat, e: Entry)
    requires k <= STEPS && forall j: nat :: j < k ==> StageAt(env, found, q, j).Ok?
    ensures var w := Wrote(env, found, q, k, e);
            && (k <= 6 ==> SamePlace(6, e, w))
            && (k >= 7 && StageAt(env, found, q, 6).value.None? ==> SamePlace(6, e, w))
            && (k >= 7 && StageAt(env, found, q, 6).value.Some? ==> Has(w, StageAt(env, found, q, 6).value.value))
            && (k == 0 || StageAt(env, found, q, 0).value.None? ==> SamePlace(0, e, w))
            && (k > 0 && StageAt(env, found, q, 0).value.Some? ==> Has(w, StageAt(env, found, q, 0).value.value))
  {
    hide StageAt, Written, Kind, Has, SamePlace;
    if k == 0 {
      SamePlaceTwice(0, e, e, e);
      SamePlaceTwice(6, e, e, e);
    } else {
      WroteParams(env, found, q, k - 1, e);
      var before, stage := Wrote(env, found, q, k - 1, e), StageAt(env, found, q, k - 1);
      StageKind(env, found, q, k - 1);
      StageKind(env, found, q, 0);
      if k >= 7 { StageKind(env, found, q, 6); }
      if stage.value.Some? {
        var v := stage.value.value;
        WritesApart(before, v, v);
        if StageAt(env, found, q, 0).value.Some? { WritesApart(before, StageAt(env, found, q, 0).value.value, v); }
        if k >= 7 && StageAt(env, found, q, 6).value.Some? {
          WritesApart(before, StageAt(env, found, q, 6).value.value, v);
        }
        if k != 1 { SamePlaceTwice(0, e, before, Written(before, v)); }
        if k != 7 { SamePlaceTwice(6, e, before, Written(before, v)); }
      }
    }
  }

  lemma SamePlaceTwice(kind: nat, a: Entry, b: Entry, c: Entry)
    ensures SamePlace(kind, a, a)
    ensures SamePlace(kind, a, b) && SamePlace(kind, b, c) ==> SamePlace(kind, a, c)
  {
  }

  /**
   * When the parameters of a sound record fit after a refused update: exactly if new ones were
   * written, which is the case once the first seven steps have passed and the request spoke about
   * them, or the old ones fit the type the record has now.
   */
  lemma RefusedParams(env: Env, e: Entry, q: UpdateRequest, fails: Faults)
    requires env.Lawful() && Sound(env, e) && UpdateEntry(env, e, q, fails).outcome.Failed?
    ensures var r := UpdateEntry(env, e, q, fails).entry.record;
            var now := if Reached(env, e.record, q, 1, fails) then NextAuthType(e.record, q) else e.record.authType;
            && r.authType == now
            && (ParamsFit(env, r.authType, r.authParamsJson) <==>
                  (Reached(env, e.record, q, 7, fails) && q.authCustomEnabled.Some?)
                  || ParamsFit(env, now, e.record.authParamsJson))
  {
    hide StageAt, Written, Wrote, Has, SamePlace, ParamsFit, NextAuthType, UpdateEntry, env.Lawful, AuthParamsStage;
    var n := RefusedPrefix(env, e, q, fails);
    var r := UpdateEntry(env, e, q, fails).entry;
    forall j: nat | j < n ensures StageAt(env, e.record, q, j).Ok? { assert Passes(env, e.record, q, j, fails); }
    WroteParams(env, e.record, q, n, e);
    StagesAre(env, e.record, q);
    ExistingOfSound(env, e);
    NextIsAType(e.record, q);
    assert Reached(env, e.record, q, 1, fails) <==> n >= 1;
    assert Reached(env, e.record, q, 7, fails) <==> n >= 7;
    if n >= 1 {
      assert Passes(env, e.record, q, 0, fails);
      NextIs(env, e, q, r);
    } else {
      TypeKept(e, r);
    }
    ParamsKept(e, r);
    if n >= 7 {
      assert Passes(env, e.record, q, 6, fails);
      ParamsStage(env, NextAuthType(e.record, q), q, e, r);
    }
  }

  lemma TypeKept(e: Entry, r: Entry)
    ensures SamePlace(0, e, r) ==> r.record.authType == e.record.authType
  {
  }

  lemma ParamsKept(e: Entry, r: Entry)
    ensures SamePlace(6, e, r) ==> r.record.authParamsJson == e.record.authParamsJson
  {
  }

  /** A request that switches the type and brings no credentials. */
  function SwitchRequest(supplier: string): UpdateRequest {
    UpdateRequest(None, None, None, Some(supplier), None, None, Some(USERPASS), None, None, None, None, None, None)
  }

  /**
   * Such a request is refused and still leaves a sound API-key entry without a usable secret, unless
   * its key happens to be the JSON text of a username and a password.
   */
  lemma SwitchLeavesUnsound(env: Env, e: Entry, supplier: string, fails: Faults)
    requires Sound(env, e) && e.record.authType == APIKEY && NonEmpty(Some(supplier)).Some?
    requires forall k :: !fails(k)
    ensures var r := UpdateEntry(env, e, SwitchRequest(supplier), fails);
            && r.outcome.Failed?
            && r.entry.record.authType == USERPASS && r.entry.secret == e.secret
            && (Sound(env, r.entry) <==> DecodeUserPass(env, e.secret.value).Some?)
  {
    hide DecodeUserPass, NonEmpty, RunFrom, UpdateEntry, NormalizeAuthType, Trimmed;
    var q := SwitchRequest(supplier);
    NormalizeStored(USERPASS);
    StoredTypesDiffer();
    ExistingOfSound(env, e);
    SwitchRuns(env, e, supplier, fails);
  }

  /** An entry with an ordinary key: after the refused request its secret cannot be read any more. */
  lemma RefusedUpdateCanBreak(env: Env, id: string, record: Record, fails: Faults)
    requires env.Lawful() && record.authType == APIKEY && forall k :: !fails(k)
    ensures var e := Entry(record, Some(env.encode(Null)));
            var r := UpdateEntry(env, e, SwitchRequest("s"), fails);
            && Sound(env, e) && r.outcome.Failed?
            && !Sound(env, r.entry) && ReadEntry(env, id, r.entry) == Err("invalid aggregate api secret")
  {
    hide UpdateEntry, NormalizeAuthType;
    var e := Entry(record, Some(env.encode(Null)));
    assert env.decode(env.encode(Null)) == Some(Null);
    assert Trimmed(Rust, "s");
    NormalizeStored(USERPASS);
    StoredTypesDiffer();
    SwitchLeavesUnsound(env, e, "s", fails);
  }

  lemma SwitchRuns(env: Env, e: Entry, supplier: string, fails: Faults)
    requires ExistingAuthType(e.record) == APIKEY && NormalizeAuthType(Some(USERPASS)) == Ok(USERPASS)
    requires NonEmpty(Some(supplier)).Some? && forall k :: !fails(k)
    ensures var r := UpdateEntry(env, e, SwitchRequest(supplier), fails);
            && r.outcome.Failed?
            && r.entry.record.authType == USERPASS && r.entry.secret == e.secret
  {
    hide NonEmpty, ExistingAuthType, NormalizeAuthType, StageAt;
    var q := SwitchRequest(supplier);
    StagesAre(env, e.record, q);
    StoredTypesDiffer();
    NoParams();
    UpdateIsRun(env, e, q, fails);
    RunThrough(env, e.record, q, 0, e, fails);
    assert StageAt(env, e.record, q, 8).Err?;
    var after := After(e, StageAt(env, e.record, q, 0));
    assert RunFrom(env, e.record, q, 0, e, fails) == RunFrom(env, e.record, q, 1, after, fails);
    FailedKeeps(env, e.record, q, 1, after, fails);
  }
}
